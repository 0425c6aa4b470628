/**
 * The layer forest as an arena: every layer is a Node stored at a position
 * of `nodes`, and that position is the layer's identity.  Children are lists
 * of positions, the parent a back-reference by position.
 */
module Forests {
  import opened Wrappers

  type LayerId = nat

  /** One layer: its configured name, radio group and initial visibility, plus its links. */
  datatype Node = Node(
    name: string,
    radioGroup: Option<string>,
    visible: bool,
    parent: Option<LayerId>,
    children: seq<LayerId>)

  /** The arena and the top-level layers, in configuration order. */
  datatype Forest = Forest(nodes: seq<Node>, roots: seq<LayerId>)

  ghost predicate Increasing(s: seq<LayerId>) {
    forall i, j :: 0 <= i < j < |s| ==> s[i] < s[j]
  }

  ghost predicate AllBelow(s: seq<LayerId>, n: nat) {
    forall k :: 0 <= k < |s| ==> s[k] < n
  }

  /**
   * Children come after their parent, inside the arena, in increasing order.
   * This is all that the traversals below need to terminate.
   */
  ghost predicate Forward(f: Forest) {
    && (forall i :: 0 <= i < |f.nodes| ==>
          Increasing(f.nodes[i].children) && forall k :: 0 <= k < |f.nodes[i].children| ==>
            i < f.nodes[i].children[k] < |f.nodes|)
    && Increasing(f.roots) && AllBelow(f.roots, |f.nodes|)
  }

  /** A parent comes before its children. */
  ghost predicate ParentsFirst(f: Forest) {
    forall i :: 0 <= i < |f.nodes| && f.nodes[i].parent.Some? ==> f.nodes[i].parent.value < i
  }

  /** Every listed child points back to the layer listing it. */
  ghost predicate ChildrenLinked(f: Forest)
    requires Forward(f)
  {
    forall i, k :: 0 <= i < |f.nodes| && 0 <= k < |f.nodes[i].children| ==>
      f.nodes[f.nodes[i].children[k]].parent == Some(i)
  }

  /** Every layer with a parent is listed among that parent's children. */
  ghost predicate ParentsLinked(f: Forest)
    requires ParentsFirst(f)
  {
    forall i :: 0 <= i < |f.nodes| && f.nodes[i].parent.Some? ==>
      i in f.nodes[f.nodes[i].parent.value].children
  }

  /** The roots are exactly the layers without a parent. */
  ghost predicate RootsLinked(f: Forest)
    requires Forward(f)
  {
    && (forall k :: 0 <= k < |f.roots| ==> f.nodes[f.roots[k]].parent.None?)
    && (forall i :: 0 <= i < |f.nodes| && f.nodes[i].parent.None? ==> i in f.roots)
  }

  /**
   * Well-formedness of the arena: a parent comes before its children, the
   * children lists and the parent links agree, and the roots are exactly the
   * layers without a parent.
   */
  ghost predicate WF(f: Forest) {
    Forward(f) && ParentsFirst(f) && ChildrenLinked(f) && ParentsLinked(f) && RootsLinked(f)
  }

  /** The layers sharing x's parent (the roots when x has none), x included. */
  function Siblings(f: Forest, x: LayerId): (s: seq<LayerId>)
    requires WF(f) && x < |f.nodes|
    ensures x in s && Increasing(s) && AllBelow(s, |f.nodes|)
    ensures forall k :: 0 <= k < |s| ==> f.nodes[s[k]].parent == f.nodes[x].parent
  {
    match f.nodes[x].parent
    case None => f.roots
    case Some(p) => f.nodes[p].children
  }

  /** j is r or lies below r. */
  predicate InSubtree(f: Forest, j: LayerId, r: LayerId)
    requires WF(f) && j < |f.nodes|
    decreases j
  {
    j == r || (f.nodes[j].parent.Some? && InSubtree(f, f.nodes[j].parent.value, r))
  }

  /** j lies below some of the layers `ids`. */
  ghost predicate InSomeSubtree(f: Forest, j: LayerId, ids: seq<LayerId>)
    requires WF(f) && j < |f.nodes|
  {
    exists k :: 0 <= k < |ids| && InSubtree(f, j, ids[k])
  }

  /** Pre-order traversal of the subtree of i: i, then its children's subtrees in order. */
  function FlattenTree(f: Forest, i: LayerId): seq<LayerId>
    requires Forward(f) && i < |f.nodes|
    decreases |f.nodes| - i, 1
  {
    [i] + FlattenAll(f, f.nodes[i].children)
  }

  /** Pre-order traversal of the subtrees of `ids`, one after the other. */
  function FlattenAll(f: Forest, ids: seq<LayerId>): seq<LayerId>
    requires Forward(f) && Increasing(ids) && AllBelow(ids, |f.nodes|)
    decreases if ids == [] then 0 else |f.nodes| - ids[0], 2
  {
    if ids == [] then [] else FlattenTree(f, ids[0]) + FlattenAll(f, ids[1..])
  }

  /** A position above every member extends an increasing list. */
  lemma IncreasingSnoc(s: seq<LayerId>, x: LayerId)
    requires Increasing(s) && AllBelow(s, x)
    ensures Increasing(s + [x]) && AllBelow(s + [x], x + 1)
  {
  }

  /** The positions a, a+1, ..., b-1. */
  function Range(a: nat, b: nat): (r: seq<LayerId>)
    requires a <= b
    ensures |r| == b - a && forall k :: 0 <= k < |r| ==> r[k] == a + k
  {
    seq(b - a, k requires 0 <= k < b - a => a + k)
  }

  lemma RangeCons(a: nat, b: nat)
    requires a < b
    ensures [a] + Range(a + 1, b) == Range(a, b)
  {
  }

  lemma RangeAppend(a: nat, b: nat, c: nat)
    requires a <= b <= c
    ensures Range(a, b) + Range(b, c) == Range(a, c)
  {
  }

  /** Two adjacent ranges joined are one range. */
  lemma RangeJoin(x: seq<LayerId>, y: seq<LayerId>, z: seq<LayerId>, a: nat, b: nat, c: nat)
    requires a <= b <= c && x == y + z && y == Range(a, b) && z == Range(b, c)
    ensures x == Range(a, c)
  {
    RangeAppend(a, b, c);
  }

  // ---------------------------------------------------------------------
  // Shape of the subtree relation

  lemma {:induction false} SubtreeAfterRoot(f: Forest, j: LayerId, r: LayerId)
    requires WF(f) && j < |f.nodes| && InSubtree(f, j, r)
    ensures r <= j
    decreases j
  {
    if j != r {
      SubtreeAfterRoot(f, f.nodes[j].parent.value, r);
    }
  }

  lemma {:induction false} SubtreeTransitive(f: Forest, a: LayerId, b: LayerId, c: LayerId)
    requires WF(f) && a < |f.nodes| && b < |f.nodes|
    requires InSubtree(f, a, b) && InSubtree(f, b, c)
    ensures InSubtree(f, a, c)
    decreases a
  {
    if a != b {
      SubtreeTransitive(f, f.nodes[a].parent.value, b, c);
    }
  }

  /** Two subtrees that share a layer are nested. */
  lemma {:induction false} SubtreesNested(f: Forest, j: LayerId, a: LayerId, b: LayerId)
    requires WF(f) && j < |f.nodes| && a < |f.nodes| && b < |f.nodes|
    requires InSubtree(f, j, a) && InSubtree(f, j, b)
    ensures InSubtree(f, a, b) || InSubtree(f, b, a)
    decreases j
  {
    if j != a && j != b {
      SubtreesNested(f, f.nodes[j].parent.value, a, b);
    }
  }

  /** Distinct siblings have disjoint subtrees. */
  lemma SiblingsDisjoint(f: Forest, j: LayerId, s: LayerId, x: LayerId)
    requires WF(f) && j < |f.nodes| && s < |f.nodes| && x < |f.nodes|
    requires s != x && f.nodes[s].parent == f.nodes[x].parent
    ensures !(InSubtree(f, j, s) && InSubtree(f, j, x))
  {
    if InSubtree(f, j, s) && InSubtree(f, j, x) {
      SubtreesNested(f, j, s, x);
      if InSubtree(f, s, x) {
        SubtreeAfterRoot(f, f.nodes[s].parent.value, x);
      } else {
        SubtreeAfterRoot(f, f.nodes[x].parent.value, s);
      }
    }
  }

  /** The subtree of i is i together with the subtrees of its children. */
  lemma {:induction false} SubtreeByChildren(f: Forest, j: LayerId, i: LayerId)
    requires WF(f) && j < |f.nodes| && i < |f.nodes|
    ensures InSubtree(f, j, i) <==> j == i || InSomeSubtree(f, j, f.nodes[i].children)
    decreases j
  {
    var ch := f.nodes[i].children;
    if InSubtree(f, j, i) && j != i {
      var p := f.nodes[j].parent.value;
      if p == i {
        var k :| 0 <= k < |ch| && ch[k] == j;
        assert InSubtree(f, j, ch[k]);
      } else {
        SubtreeByChildren(f, p, i);
        var k :| 0 <= k < |ch| && InSubtree(f, p, ch[k]);
        assert InSubtree(f, j, ch[k]);
      }
    }
    if InSomeSubtree(f, j, ch) {
      var k :| 0 <= k < |ch| && InSubtree(f, j, ch[k]);
      assert InSubtree(f, ch[k], i);
      SubtreeTransitive(f, j, ch[k], i);
    }
  }

  /** Taking one more of the layers `ids` adds that layer's subtree. */
  lemma InSomeSubtreeExtend(f: Forest, j: LayerId, ids: seq<LayerId>, i: nat)
    requires WF(f) && j < |f.nodes| && i < |ids|
    ensures InSomeSubtree(f, j, ids[..i + 1]) <==> InSomeSubtree(f, j, ids[..i]) || InSubtree(f, j, ids[i])
  {
    if InSomeSubtree(f, j, ids[..i + 1]) {
      var k :| 0 <= k < i + 1 && InSubtree(f, j, ids[..i + 1][k]);
      if k < i {
        assert ids[..i][k] == ids[k];
      }
    }
    if InSomeSubtree(f, j, ids[..i]) {
      var k :| 0 <= k < i && InSubtree(f, j, ids[..i][k]);
      assert ids[..i + 1][k] == ids[k];
    }
    if InSubtree(f, j, ids[i]) {
      assert ids[..i + 1][i] == ids[i];
    }
  }

  // ---------------------------------------------------------------------
  // Later additions to the arena do not disturb a finished subtree

  lemma {:induction false} FlattenTreeStable(f: Forest, g: Forest, i: LayerId)
    requires Forward(f) && Forward(g) && i < |f.nodes| <= |g.nodes|
    requires forall j :: i <= j < |f.nodes| ==> g.nodes[j] == f.nodes[j]
    ensures FlattenTree(g, i) == FlattenTree(f, i)
    decreases |f.nodes| - i, 1
  {
    FlattenAllStable(f, g, f.nodes[i].children, i);
  }

  lemma {:induction false} FlattenAllStable(f: Forest, g: Forest, ids: seq<LayerId>, lo: nat)
    requires Forward(f) && Forward(g) && |f.nodes| <= |g.nodes|
    requires Increasing(ids) && AllBelow(ids, |f.nodes|) && forall k :: 0 <= k < |ids| ==> lo <= ids[k]
    requires forall j :: lo <= j < |f.nodes| ==> g.nodes[j] == f.nodes[j]
    ensures FlattenAll(g, ids) == FlattenAll(f, ids)
    decreases if ids == [] then 0 else |f.nodes| - ids[0], 2
  {
    if ids != [] {
      FlattenTreeStable(f, g, ids[0]);
      FlattenAllStable(f, g, ids[1..], lo);
    }
  }
}
