/**
 * What Layer.setVisible does to the visibility of the whole forest, as a
 * function of the visibility before the call.  Visibility is a sequence
 * indexed by layer position.
 *
 * The rule:
 *  - the layer and its whole subtree take the new value;
 *  - when the value is true, every ancestor of the layer is switched on
 *    (without cascading down into the ancestor's other children), and at
 *    every level of that path -- the layer itself and each ancestor -- the
 *    radio rivals (different siblings in the same non-empty radio group)
 *    are switched off together with their subtrees.
 */
module Visibility {
  import opened Wrappers
  import opened Forests

  /** A radio group is present and not the empty string. */
  predicate HasGroup(g: Option<string>) {
    g.Some? && g.value != ""
  }

  /** s competes with x: a different sibling in x's non-empty radio group. */
  predicate IsRival(f: Forest, s: LayerId, x: LayerId)
    requires s < |f.nodes| && x < |f.nodes|
  {
    && s != x
    && f.nodes[s].parent == f.nodes[x].parent
    && HasGroup(f.nodes[x].radioGroup)
    && f.nodes[s].radioGroup == f.nodes[x].radioGroup
  }

  /** j lies in the subtree of one of the layers of s that compete with x. */
  ghost predicate RivalAmong(f: Forest, j: LayerId, x: LayerId, s: seq<LayerId>)
    requires WF(f) && j < |f.nodes| && x < |f.nodes| && AllBelow(s, |f.nodes|)
  {
    exists k :: 0 <= k < |s| && IsRival(f, s[k], x) && InSubtree(f, j, s[k])
  }

  /** j lies in the subtree of a radio rival of x. */
  ghost predicate InRival(f: Forest, j: LayerId, x: LayerId)
    requires WF(f) && j < |f.nodes| && x < |f.nodes|
  {
    RivalAmong(f, j, x, Siblings(f, x))
  }

  /** a is a proper ancestor of x. */
  ghost predicate Above(f: Forest, a: LayerId, x: LayerId)
    requires WF(f) && a < |f.nodes| && x < |f.nodes|
  {
    a != x && InSubtree(f, x, a)
  }

  /** j lies under a radio rival of x or of one of x's ancestors. */
  ghost predicate PathRival(f: Forest, j: LayerId, x: LayerId)
    requires WF(f) && j < |f.nodes| && x < |f.nodes|
  {
    exists a :: 0 <= a < |f.nodes| && InSubtree(f, x, a) && InRival(f, j, a)
  }

  /** The subtree of r takes the value v; every other layer keeps its visibility. */
  ghost function Cascade(f: Forest, vis: seq<bool>, r: LayerId, v: bool): (w: seq<bool>)
    requires WF(f) && |vis| == |f.nodes| && r < |f.nodes|
    ensures |w| == |vis|
  {
    seq(|vis|, j requires 0 <= j < |vis| => if InSubtree(f, j, r) then v else vis[j])
  }

  /** The subtrees of x's radio rivals are switched off. */
  ghost function Exclusive(f: Forest, vis: seq<bool>, x: LayerId): (w: seq<bool>)
    requires WF(f) && |vis| == |f.nodes| && x < |f.nodes|
    ensures |w| == |vis|
  {
    seq(|vis|, j requires 0 <= j < |vis| => if InRival(f, j, x) then false else vis[j])
  }

  /** Walking up from x: exclude x's rivals, switch the parent on, continue from the parent. */
  ghost function Up(f: Forest, vis: seq<bool>, x: LayerId): (w: seq<bool>)
    requires WF(f) && |vis| == |f.nodes| && x < |f.nodes|
    ensures |w| == |vis|
    decreases x
  {
    var e := Exclusive(f, vis, x);
    match f.nodes[x].parent
    case None => e
    case Some(p) => Up(f, e[p := true], p)
  }

  /** The visibility after layer id is set to v. */
  ghost function SetVisibleSpec(f: Forest, vis: seq<bool>, id: LayerId, v: bool): (w: seq<bool>)
    requires WF(f) && |vis| == |f.nodes| && id < |f.nodes|
    ensures |w| == |vis|
  {
    if v then Up(f, Cascade(f, vis, id, true), id) else Cascade(f, vis, id, false)
  }

  /**
   * The value set_visible(id, v) forces on layer j, if any; a layer with
   * no forced value keeps its visibility.
   */
  ghost function Forced(f: Forest, id: LayerId, v: bool, j: LayerId): Option<bool>
    requires WF(f) && id < |f.nodes| && j < |f.nodes|
  {
    if InSubtree(f, j, id) then Some(v)
    else if !v then None
    else if Above(f, j, id) then Some(true)
    else if PathRival(f, j, id) then Some(false)
    else None
  }

  /** Every visible layer below a parent has a visible parent. */
  ghost predicate Consistent(f: Forest, vis: seq<bool>)
    requires WF(f) && |vis| == |f.nodes|
  {
    forall j :: 0 <= j < |f.nodes| && f.nodes[j].parent.Some? && vis[j] ==> vis[f.nodes[j].parent.value]
  }

  // ---------------------------------------------------------------------
  // Where the effects land

  /** A layer under a rival of x (or of an ancestor a of x) is neither below x nor on x's path. */
  lemma RivalApart(f: Forest, j: LayerId, a: LayerId, x: LayerId)
    requires WF(f) && j < |f.nodes| && a < |f.nodes| && x < |f.nodes|
    requires InSubtree(f, x, a) && InRival(f, j, a)
    ensures !InSubtree(f, j, x) && !InSubtree(f, x, j)
  {
    var s := Siblings(f, a);
    var k :| 0 <= k < |s| && IsRival(f, s[k], a) && InSubtree(f, j, s[k]);
    if InSubtree(f, j, x) {
      SubtreeTransitive(f, j, x, a);
      SiblingsDisjoint(f, j, s[k], a);
    }
    if InSubtree(f, x, j) {
      SubtreeTransitive(f, x, j, s[k]);
      SiblingsDisjoint(f, x, s[k], a);
    }
  }

  /** A root has no proper ancestor. */
  lemma RootSubtree(f: Forest, x: LayerId, a: LayerId)
    requires WF(f) && x < |f.nodes| && a < |f.nodes| && f.nodes[x].parent.None?
    ensures InSubtree(f, x, a) <==> a == x
  {
  }

  /** Up changes exactly: proper ancestors on, layers under a rival of the path off. */
  lemma {:induction false} UpPointwise(f: Forest, vis: seq<bool>, x: LayerId, j: LayerId)
    requires WF(f) && |vis| == |f.nodes| && x < |f.nodes| && j < |f.nodes|
    ensures Up(f, vis, x)[j] == if Above(f, j, x) then true else if PathRival(f, j, x) then false else vis[j]
    decreases x
  {
    var e := Exclusive(f, vis, x);
    match f.nodes[x].parent
    case None =>
      RootSubtree(f, x, j);
      if PathRival(f, j, x) {
        var a :| 0 <= a < |f.nodes| && InSubtree(f, x, a) && InRival(f, j, a);
        RootSubtree(f, x, a);
      }
      if InRival(f, j, x) {
        assert InSubtree(f, x, x);
      }
    case Some(p) =>
      var w := e[p := true];
      UpPointwise(f, w, p, j);
      assert InSubtree(f, x, p);
      PathStep(f, x, p, j);
      if j == p {
        if PathRival(f, p, p) {
          var a :| 0 <= a < |f.nodes| && InSubtree(f, p, a) && InRival(f, p, a);
          RivalApart(f, p, a, p);
        }
      }
  }

  /** One step up the path: x's ancestors are its parent and the parent's ancestors. */
  lemma PathStep(f: Forest, x: LayerId, p: LayerId, j: LayerId)
    requires WF(f) && x < |f.nodes| && j < |f.nodes| && f.nodes[x].parent == Some(p)
    ensures p < |f.nodes|
    ensures Above(f, j, x) <==> j == p || Above(f, j, p)
    ensures PathRival(f, j, x) <==> InRival(f, j, x) || PathRival(f, j, p)
  {
    if PathRival(f, j, x) {
      var a :| 0 <= a < |f.nodes| && InSubtree(f, x, a) && InRival(f, j, a);
      if a != x {
        assert InSubtree(f, p, a);
      }
    }
    if InRival(f, j, x) {
      assert InSubtree(f, x, x);
    }
    if PathRival(f, j, p) {
      var a :| 0 <= a < |f.nodes| && InSubtree(f, p, a) && InRival(f, j, a);
      assert InSubtree(f, x, a);
    }
    if Above(f, j, p) {
      assert InSubtree(f, x, j);
      SubtreeAfterRoot(f, p, j);
    }
    if j == p {
      assert InSubtree(f, x, j);
    }
  }

  /** The characterisation of setVisible: each layer takes its forced value or keeps its own. */
  lemma SetVisiblePointwise(f: Forest, vis: seq<bool>, id: LayerId, v: bool, j: LayerId)
    requires WF(f) && |vis| == |f.nodes| && id < |f.nodes| && j < |f.nodes|
    ensures SetVisibleSpec(f, vis, id, v)[j] == match Forced(f, id, v, j) case Some(b) => b case None => vis[j]
  {
    if v {
      var c := Cascade(f, vis, id, true);
      UpPointwise(f, c, id, j);
      if InSubtree(f, j, id) {
        if Above(f, j, id) {
          SubtreeAfterRoot(f, j, id);
          SubtreeAfterRoot(f, id, j);
        }
        if PathRival(f, j, id) {
          var a :| 0 <= a < |f.nodes| && InSubtree(f, id, a) && InRival(f, j, a);
          RivalApart(f, j, a, id);
        }
      }
    }
  }

  // ---------------------------------------------------------------------
  // Consequences

  /** The layer itself and its whole subtree take the new value (downward cascade). */
  lemma SetVisibleCascades(f: Forest, vis: seq<bool>, id: LayerId, v: bool, j: LayerId)
    requires WF(f) && |vis| == |f.nodes| && id < |f.nodes| && j < |f.nodes|
    requires InSubtree(f, j, id)
    ensures SetVisibleSpec(f, vis, id, v)[j] == v
  {
    SetVisiblePointwise(f, vis, id, v, j);
  }

  /** Making a layer visible makes all of its ancestors visible. */
  lemma SetVisibleRaisesAncestors(f: Forest, vis: seq<bool>, id: LayerId, a: LayerId)
    requires WF(f) && |vis| == |f.nodes| && id < |f.nodes| && a < |f.nodes|
    requires InSubtree(f, id, a)
    ensures SetVisibleSpec(f, vis, id, true)[a]
  {
    SetVisiblePointwise(f, vis, id, true, a);
  }

  /**
   * Making a layer visible switches off every radio rival of the layer and
   * of each of its ancestors, together with the rival's subtree.
   */
  lemma SetVisibleExcludesRivals(f: Forest, vis: seq<bool>, id: LayerId, a: LayerId, s: LayerId, j: LayerId)
    requires WF(f) && |vis| == |f.nodes| && id < |f.nodes| && a < |f.nodes| && s < |f.nodes| && j < |f.nodes|
    requires InSubtree(f, id, a) && IsRival(f, s, a) && InSubtree(f, j, s)
    ensures !SetVisibleSpec(f, vis, id, true)[j]
  {
    var sib := Siblings(f, a);
    SiblingListed(f, s, a);
    var k :| 0 <= k < |sib| && sib[k] == s;
    assert InRival(f, j, a);
    RivalApart(f, j, a, id);
    SetVisiblePointwise(f, vis, id, true, j);
  }

  /** Showing a layer switches on nothing but the layer, its subtree and its ancestors. */
  lemma SetVisibleShowsOnlyPath(f: Forest, vis: seq<bool>, id: LayerId, j: LayerId)
    requires WF(f) && |vis| == |f.nodes| && id < |f.nodes| && j < |f.nodes|
    requires !vis[j] && SetVisibleSpec(f, vis, id, true)[j]
    ensures InSubtree(f, j, id) || InSubtree(f, id, j)
  {
    SetVisiblePointwise(f, vis, id, true, j);
  }

  /** Every layer sharing x's parent is listed among x's siblings. */
  lemma SiblingListed(f: Forest, s: LayerId, x: LayerId)
    requires WF(f) && s < |f.nodes| && x < |f.nodes| && f.nodes[s].parent == f.nodes[x].parent
    ensures s in Siblings(f, x)
  {
  }

  /** Layers outside the subtree, off the path and away from the path's rivals keep their visibility. */
  lemma SetVisibleFrame(f: Forest, vis: seq<bool>, id: LayerId, v: bool, j: LayerId)
    requires WF(f) && |vis| == |f.nodes| && id < |f.nodes| && j < |f.nodes|
    requires !InSubtree(f, j, id) && !(v && (Above(f, j, id) || PathRival(f, j, id)))
    ensures SetVisibleSpec(f, vis, id, v)[j] == vis[j]
  {
    SetVisiblePointwise(f, vis, id, v, j);
  }

  /** A second identical call changes nothing. */
  lemma SetVisibleIdempotent(f: Forest, vis: seq<bool>, id: LayerId, v: bool)
    requires WF(f) && |vis| == |f.nodes| && id < |f.nodes|
    ensures var w := SetVisibleSpec(f, vis, id, v); SetVisibleSpec(f, w, id, v) == w
  {
    var w := SetVisibleSpec(f, vis, id, v);
    var w2 := SetVisibleSpec(f, w, id, v);
    forall j | 0 <= j < |f.nodes| ensures w2[j] == w[j] {
      SetVisiblePointwise(f, vis, id, v, j);
      SetVisiblePointwise(f, w, id, v, j);
    }
  }

  /** A child of a layer under a path rival is under that rival too. */
  lemma PathRivalDown(f: Forest, j: LayerId, id: LayerId)
    requires WF(f) && j < |f.nodes| && id < |f.nodes| && f.nodes[j].parent.Some?
    requires PathRival(f, f.nodes[j].parent.value, id)
    ensures PathRival(f, j, id)
  {
    var p := f.nodes[j].parent.value;
    var a :| 0 <= a < |f.nodes| && InSubtree(f, id, a) && InRival(f, p, a);
    RivalDown(f, j, a);
  }

  /** The children of a layer under a rival of a are under that rival too. */
  lemma RivalDown(f: Forest, j: LayerId, a: LayerId)
    requires WF(f) && j < |f.nodes| && a < |f.nodes| && f.nodes[j].parent.Some?
    requires InRival(f, f.nodes[j].parent.value, a)
    ensures InRival(f, j, a)
  {
    var s := Siblings(f, a);
    var k :| 0 <= k < |s| && IsRival(f, s[k], a) && InSubtree(f, f.nodes[j].parent.value, s[k]);
    assert InSubtree(f, j, s[k]);
  }

  /** Visible layers keep visible parents: setVisible preserves the consistency of the forest. */
  lemma SetVisibleConsistent(f: Forest, vis: seq<bool>, id: LayerId, v: bool)
    requires WF(f) && |vis| == |f.nodes| && id < |f.nodes| && Consistent(f, vis)
    ensures Consistent(f, SetVisibleSpec(f, vis, id, v))
  {
    var w := SetVisibleSpec(f, vis, id, v);
    forall j | 0 <= j < |f.nodes| && f.nodes[j].parent.Some? && w[j]
      ensures w[f.nodes[j].parent.value]
    {
      var p := f.nodes[j].parent.value;
      SetVisiblePointwise(f, vis, id, v, j);
      SetVisiblePointwise(f, vis, id, v, p);
      if InSubtree(f, j, id) {
        if j == id {
          assert Above(f, p, id);
        } else {
          assert InSubtree(f, p, id);
        }
      } else if v && Above(f, j, id) {
        assert InSubtree(f, j, p);
        SubtreeTransitive(f, id, j, p);
        SubtreeAfterRoot(f, id, j);
      } else {
        if v && PathRival(f, p, id) {
          PathRivalDown(f, j, id);
        }
      }
    }
  }

  // ---------------------------------------------------------------------
  // The order of the notifications

  /**
   * The notice class of layer j when id is set: 0 for id itself, 1 for the
   * layers under radio rivals, 2 for id's descendants, 3 for its ancestors.
   * Layers that do not change get a class too, but are never reported.
   */
  function NoticeRank(f: Forest, id: LayerId, j: LayerId): (k: nat)
    requires WF(f) && id < |f.nodes| && j < |f.nodes|
    ensures k < 4
  {
    if j == id then 0
    else if InSubtree(f, j, id) then 2
    else if InSubtree(f, id, j) then 3
    else 1
  }

  /** The notice class of every layer, by position. */
  function NoticeRanks(f: Forest, id: LayerId): (rank: seq<nat>)
    requires WF(f) && id < |f.nodes|
    ensures |rank| == |f.nodes| && forall j :: 0 <= j < |f.nodes| ==> rank[j] == NoticeRank(f, id, j) < 4
  {
    seq(|f.nodes|, j requires 0 <= j < |f.nodes| => NoticeRank(f, id, j))
  }

  /**
   * Among the layers setVisible(id, v) changes, class 0 is id itself,
   * class 1 the layers under a radio rival of id or of an ancestor, class 2
   * id's proper descendants and class 3 its proper ancestors.
   */
  lemma NoticeRankMeaning(f: Forest, vis: seq<bool>, id: LayerId, v: bool, j: LayerId)
    requires WF(f) && |vis| == |f.nodes| && id < |f.nodes| && j < |f.nodes|
    requires SetVisibleSpec(f, vis, id, v)[j] != vis[j]
    ensures NoticeRank(f, id, j) == 0 <==> j == id
    ensures NoticeRank(f, id, j) == 1 <==> v && PathRival(f, j, id)
    ensures NoticeRank(f, id, j) == 2 <==> j != id && InSubtree(f, j, id)
    ensures NoticeRank(f, id, j) == 3 <==> v && Above(f, j, id)
  {
    SetVisiblePointwise(f, vis, id, v, j);
    if PathRival(f, j, id) {
      var a :| 0 <= a < |f.nodes| && InSubtree(f, id, a) && InRival(f, j, a);
      RivalApart(f, j, a, id);
    }
    if InSubtree(f, j, id) && InSubtree(f, id, j) {
      SubtreeAfterRoot(f, j, id);
      SubtreeAfterRoot(f, id, j);
    }
  }

  // ---------------------------------------------------------------------
  // Radio exclusivity

  /** No two radio rivals are visible together. */
  ghost predicate RadioExclusive(f: Forest, vis: seq<bool>)
    requires WF(f) && |vis| == |f.nodes|
  {
    forall s, x :: 0 <= s < |f.nodes| && 0 <= x < |f.nodes| && IsRival(f, s, x) && vis[s] ==> !vis[x]
  }

  /** No layer strictly below id has a radio rival. */
  ghost predicate NoRivalsBelow(f: Forest, id: LayerId)
    requires WF(f) && id < |f.nodes|
  {
    forall s, x :: 0 <= s < |f.nodes| && 0 <= x < |f.nodes| && IsRival(f, s, x) ==> s == id || !InSubtree(f, s, id)
  }

  /** Hiding a layer only ever hides: every layer visible afterwards was visible before. */
  lemma HideOnlyHides(f: Forest, vis: seq<bool>, id: LayerId, j: LayerId)
    requires WF(f) && |vis| == |f.nodes| && id < |f.nodes| && j < |f.nodes|
    ensures SetVisibleSpec(f, vis, id, false)[j] ==> vis[j]
  {
    SetVisiblePointwise(f, vis, id, false, j);
  }

  /** After showing id, a layer on id's path has no visible rival. */
  lemma PathRivalHidden(f: Forest, vis: seq<bool>, id: LayerId, s: LayerId, x: LayerId)
    requires WF(f) && |vis| == |f.nodes| && id < |f.nodes| && s < |f.nodes| && x < |f.nodes|
    requires InSubtree(f, id, s) && IsRival(f, x, s)
    ensures !SetVisibleSpec(f, vis, id, true)[x]
  {
    SetVisibleExcludesRivals(f, vis, id, s, x, x);
  }

  /**
   * A layer that showing id leaves visible is either on id's path, strictly
   * below id, or was visible before and is untouched.
   */
  lemma ShownLayer(f: Forest, vis: seq<bool>, id: LayerId, j: LayerId)
    requires WF(f) && |vis| == |f.nodes| && id < |f.nodes| && j < |f.nodes|
    requires SetVisibleSpec(f, vis, id, true)[j]
    ensures InSubtree(f, id, j) || (j != id && InSubtree(f, j, id)) || vis[j]
  {
    SetVisiblePointwise(f, vis, id, true, j);
  }

  /**
   * setVisible keeps radio rivals exclusive: hiding always does, and showing
   * does when no layer below the shown one has a rival (the downward cascade
   * switches on every descendant, rivals included).
   */
  lemma SetVisibleRadioExclusive(f: Forest, vis: seq<bool>, id: LayerId, v: bool)
    requires WF(f) && |vis| == |f.nodes| && id < |f.nodes|
    requires RadioExclusive(f, vis) && (v ==> NoRivalsBelow(f, id))
    ensures RadioExclusive(f, SetVisibleSpec(f, vis, id, v))
  {
    var w := SetVisibleSpec(f, vis, id, v);
    forall s, x | 0 <= s < |f.nodes| && 0 <= x < |f.nodes| && IsRival(f, s, x) && w[s]
      ensures !w[x]
    {
      if !v {
        HideOnlyHides(f, vis, id, s);
        HideOnlyHides(f, vis, id, x);
      } else if w[x] {
        ShownLayer(f, vis, id, s);
        ShownLayer(f, vis, id, x);
        assert IsRival(f, x, s);
        if InSubtree(f, id, s) {
          PathRivalHidden(f, vis, id, s, x);
        } else if InSubtree(f, id, x) {
          PathRivalHidden(f, vis, id, x, s);
        }
      }
    }
  }
}
