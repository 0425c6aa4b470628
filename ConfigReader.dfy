/**
 * ConfigReader.readConfig: turns the nested layer configuration into the
 * layer forest.  Layers are allocated depth first, so the position of a layer
 * in the arena is its position in the pre-order traversal of the
 * configuration.
 */
module ConfigReader {
  import opened Wrappers
  import opened Forests
  import opened Seqs

  /** One configured layer: name, optional radio group, visibility (default false), children. */
  datatype Descriptor = Descriptor(
    name: string,
    radioGroup: Option<string> := None,
    visible: bool := false,
    children: seq<Descriptor> := [])

  /** The names of the configured layers, in pre-order. */
  function FlatNames(ds: seq<Descriptor>): seq<string>
    decreases ds
  {
    if ds == [] then [] else [ds[0].name] + FlatNames(ds[0].children) + FlatNames(ds[1..])
  }

  /** No two configured layers share a name. */
  ghost predicate NamesDistinct(ds: seq<Descriptor>) {
    var names := FlatNames(ds);
    forall i, j :: 0 <= i < j < |names| ==> names[i] != names[j]
  }

  function NodeNames(nodes: seq<Node>): (r: seq<string>)
    ensures |r| == |nodes| && forall i :: 0 <= i < |nodes| ==> r[i] == nodes[i].name
  {
    seq(|nodes|, i requires 0 <= i < |nodes| => nodes[i].name)
  }

  /** The child list of p, or the roots when p is None. */
  function Attached(f: Forest, p: Option<LayerId>): seq<LayerId>
    requires p.Some? ==> p.value < |f.nodes|
  {
    match p
    case None => f.roots
    case Some(q) => f.nodes[q].children
  }

  /** The layers attached under p in r that were not attached in f. */
  function NewIds(f: Forest, r: Forest, p: Option<LayerId>): seq<LayerId>
    requires p.Some? ==> p.value < |f.nodes| <= |r.nodes|
    requires |Attached(f, p)| <= |Attached(r, p)|
  {
    Attached(r, p)[|Attached(f, p)|..]
  }

  /** Allocates one layer for d at the end of the arena and attaches it under p. */
  function AddNode(f: Forest, d: Descriptor, p: Option<LayerId>): (r: Forest)
    requires p.Some? ==> p.value < |f.nodes|
    ensures |r.nodes| == |f.nodes| + 1
    ensures r.nodes[|f.nodes|] == Node(d.name, d.radioGroup, d.visible, p, [])
    ensures Attached(r, p) == Attached(f, p) + [|f.nodes|]
    ensures forall i :: 0 <= i < |f.nodes| && Some(i) != p ==> r.nodes[i] == f.nodes[i]
    ensures p.Some? ==> r.roots == f.roots
    ensures p.Some? ==> r.nodes[p.value] == f.nodes[p.value].(children := Attached(r, p))
  {
    Attach(f, Node(d.name, d.radioGroup, d.visible, p, []))
  }

  function Attach(f: Forest, n: Node): Forest
    requires n.parent.Some? ==> n.parent.value < |f.nodes|
  {
    var id := |f.nodes|;
    match n.parent
    case None => Forest(f.nodes + [n], f.roots + [id])
    case Some(q) => Forest(f.nodes[q := f.nodes[q].(children := f.nodes[q].children + [id])] + [n], f.roots)
  }

  lemma AttachWF(f: Forest, n: Node)
    requires WF(f) && n.children == [] && (n.parent.Some? ==> n.parent.value < |f.nodes|)
    ensures WF(Attach(f, n))
  {
    AttachForward(f, n);
    AttachParents(f, n);
    AttachChildren(f, n);
    AttachListed(f, n);
    AttachRoots(f, n);
  }

  lemma AttachForward(f: Forest, n: Node)
    requires Forward(f) && n.children == [] && (n.parent.Some? ==> n.parent.value < |f.nodes|)
    ensures Forward(Attach(f, n))
  {
    var r := Attach(f, n);
    var id := |f.nodes|;
    forall i | 0 <= i < |r.nodes|
      ensures Increasing(r.nodes[i].children)
      ensures forall k :: 0 <= k < |r.nodes[i].children| ==> i < r.nodes[i].children[k] < |r.nodes|
    {
      if n.parent == Some(i) {
        assert r.nodes[i].children == f.nodes[i].children + [id];
        assert AllBelow(f.nodes[i].children, id);
      } else if i < id {
        assert r.nodes[i].children == f.nodes[i].children;
      }
    }
    if n.parent.None? {
      assert r.roots == f.roots + [id];
    }
  }

  lemma AttachParents(f: Forest, n: Node)
    requires ParentsFirst(f) && (n.parent.Some? ==> n.parent.value < |f.nodes|)
    ensures ParentsFirst(Attach(f, n))
    ensures forall i :: 0 <= i < |f.nodes| ==> Attach(f, n).nodes[i].parent == f.nodes[i].parent
  {
  }

  lemma AttachChildren(f: Forest, n: Node)
    requires Forward(f) && ParentsFirst(f) && ChildrenLinked(f) && n.children == [] && (n.parent.Some? ==> n.parent.value < |f.nodes|)
    ensures Forward(Attach(f, n)) && ChildrenLinked(Attach(f, n))
  {
    var r := Attach(f, n);
    AttachForward(f, n);
    AttachParents(f, n);
    forall i, k | 0 <= i < |r.nodes| && 0 <= k < |r.nodes[i].children|
      ensures r.nodes[r.nodes[i].children[k]].parent == Some(i)
    {
      if n.parent == Some(i) && k == |f.nodes[i].children| {
      } else {
        assert r.nodes[i].children[k] == f.nodes[i].children[k];
      }
    }
  }

  lemma AttachListed(f: Forest, n: Node)
    requires ParentsFirst(f) && ParentsLinked(f) && (n.parent.Some? ==> n.parent.value < |f.nodes|)
    ensures ParentsFirst(Attach(f, n)) && ParentsLinked(Attach(f, n))
  {
    var r := Attach(f, n);
    var id := |f.nodes|;
    AttachParents(f, n);
    AttachNodes(f, n);
    forall i | 0 <= i < |r.nodes| && r.nodes[i].parent.Some?
      ensures i in r.nodes[r.nodes[i].parent.value].children
    {
      var q := r.nodes[i].parent.value;
      if i < id {
        assert q == f.nodes[i].parent.value && q < id;
        assert i in f.nodes[q].children;
        if n.parent == Some(q) {
          assert r.nodes[q].children == f.nodes[q].children + [id];
        } else {
          assert r.nodes[q].children == f.nodes[q].children;
        }
      } else {
        assert r.nodes[q].children == f.nodes[q].children + [id];
      }
    }
  }

  /** Attach changes only the parent's child list, and puts n at the end. */
  lemma AttachNodes(f: Forest, n: Node)
    requires n.parent.Some? ==> n.parent.value < |f.nodes|
    ensures var r := Attach(f, n);
      && |r.nodes| == |f.nodes| + 1 && r.nodes[|f.nodes|] == n
      && forall i :: 0 <= i < |f.nodes| ==>
           r.nodes[i].children == (if n.parent == Some(i) then f.nodes[i].children + [|f.nodes|] else f.nodes[i].children)
  {
  }

  lemma AttachRoots(f: Forest, n: Node)
    requires Forward(f) && ParentsFirst(f) && RootsLinked(f) && n.children == [] && (n.parent.Some? ==> n.parent.value < |f.nodes|)
    ensures Forward(Attach(f, n)) && RootsLinked(Attach(f, n))
  {
    var r := Attach(f, n);
    var id := |f.nodes|;
    AttachForward(f, n);
    AttachParents(f, n);
    forall i | 0 <= i < |r.nodes| && r.nodes[i].parent.None? ensures i in r.roots {
      if i < id {
        assert i in f.roots;
      }
    }
  }

  /** Builds the layers of ds (depth first) and attaches the top ones under p. */
  function AddTrees(f: Forest, ds: seq<Descriptor>, p: Option<LayerId>): (r: Forest)
    requires p.Some? ==> p.value < |f.nodes|
    ensures |r.nodes| == |f.nodes| + |FlatNames(ds)|
    decreases ds
  {
    if ds == [] then f
    else
      var id := |f.nodes|;
      var f1 := AddNode(f, ds[0], p);
      var f2 := AddTrees(f1, ds[0].children, Some(id));
      AddTrees(f2, ds[1..], p)
  }

  /** AddTrees appends the names of ds, in pre-order, to the arena. */
  lemma {:induction false} AddTreesNames(f: Forest, ds: seq<Descriptor>, p: Option<LayerId>)
    requires p.Some? ==> p.value < |f.nodes|
    ensures NodeNames(AddTrees(f, ds, p).nodes) == NodeNames(f.nodes) + FlatNames(ds)
    decreases ds
  {
    if ds != [] {
      var id := |f.nodes|;
      var f1 := AddNode(f, ds[0], p);
      var f2 := AddTrees(f1, ds[0].children, Some(id));
      AddTreesNames(f1, ds[0].children, Some(id));
      AddTreesNames(f2, ds[1..], p);
      assert NodeNames(f1.nodes) == NodeNames(f.nodes) + [ds[0].name];
      assert FlatNames(ds) == [ds[0].name] + FlatNames(ds[0].children) + FlatNames(ds[1..]);
      ConcatAssoc(NodeNames(f.nodes), [ds[0].name], FlatNames(ds[0].children), FlatNames(ds[1..]));
    }
  }

  /** AddTrees leaves every older layer alone except p, whose child list it extends. */
  lemma {:induction false} AddTreesFrame(f: Forest, ds: seq<Descriptor>, p: Option<LayerId>)
    requires p.Some? ==> p.value < |f.nodes|
    ensures var r := AddTrees(f, ds, p);
      && (forall i :: 0 <= i < |f.nodes| && Some(i) != p ==> r.nodes[i] == f.nodes[i])
      && (p.Some? ==> r.roots == f.roots)
      && (p.Some? ==> r.nodes[p.value] == f.nodes[p.value].(children := Attached(r, p)))
    decreases ds
  {
    if ds != [] {
      var id := |f.nodes|;
      var f1 := AddNode(f, ds[0], p);
      var f2 := AddTrees(f1, ds[0].children, Some(id));
      AddTreesFrame(f1, ds[0].children, Some(id));
      AddTreesFrame(f2, ds[1..], p);
    }
  }

  /** AddTrees attaches exactly |ds| new layers, all fresh, after the old ones under p. */
  lemma {:induction false} AddTreesAttached(f: Forest, ds: seq<Descriptor>, p: Option<LayerId>)
    requires p.Some? ==> p.value < |f.nodes|
    ensures var r := AddTrees(f, ds, p);
      && |Attached(r, p)| == |Attached(f, p)| + |ds|
      && Attached(r, p)[..|Attached(f, p)|] == Attached(f, p)
      && (forall k :: |Attached(f, p)| <= k < |Attached(r, p)| ==> |f.nodes| <= Attached(r, p)[k])
    decreases ds
  {
    if ds != [] {
      var id := |f.nodes|;
      var f1 := AddNode(f, ds[0], p);
      var f2 := AddTrees(f1, ds[0].children, Some(id));
      AddTreesFirstAttached(f, ds, p);
      var r := AddTrees(f2, ds[1..], p);
      assert r == AddTrees(f, ds, p);
      AddTreesAttached(f2, ds[1..], p);
      PrefixAfter(Attached(f, p), Attached(f2, p), Attached(r, p), id, |f2.nodes|);
    }
  }

  /** Building the first tree attaches its root, and only it, under p. */
  lemma AddTreesFirstAttached(f: Forest, ds: seq<Descriptor>, p: Option<LayerId>)
    requires (p.Some? ==> p.value < |f.nodes|) && ds != []
    ensures var id := |f.nodes|;
      var f2 := AddTrees(AddNode(f, ds[0], p), ds[0].children, Some(id));
      Attached(f2, p) == Attached(f, p) + [id]
  {
    var id := |f.nodes|;
    var f1 := AddNode(f, ds[0], p);
    AddTreesFrame(f1, ds[0].children, Some(id));
    var f2 := AddTrees(f1, ds[0].children, Some(id));
    assert Attached(f2, p) == Attached(f1, p);
  }

  /** a + [id] is a prefix of ar followed by positions from mid on, so a is one followed by positions from id on. */
  lemma PrefixAfter(a: seq<LayerId>, a2: seq<LayerId>, ar: seq<LayerId>, id: LayerId, mid: nat)
    requires a2 == a + [id] && id < mid
    requires |a2| <= |ar| && ar[..|a2|] == a2
    requires forall k :: |a2| <= k < |ar| ==> mid <= ar[k]
    ensures ar[..|a|] == a
    ensures forall k :: |a| <= k < |ar| ==> id <= ar[k]
  {
    assert ar[..|a|] == a2[..|a|];
    assert ar[|a|] == a2[|a|];
  }

  /** AddTrees keeps children after their parents. */
  lemma {:induction false} AddTreesForward(f: Forest, ds: seq<Descriptor>, p: Option<LayerId>)
    requires Forward(f) && (p.Some? ==> p.value < |f.nodes|)
    ensures Forward(AddTrees(f, ds, p))
    decreases ds
  {
    if ds != [] {
      var id := |f.nodes|;
      var f1 := AddNode(f, ds[0], p);
      AttachForward(f, Node(ds[0].name, ds[0].radioGroup, ds[0].visible, p, []));
      var f2 := AddTrees(f1, ds[0].children, Some(id));
      AddTreesForward(f1, ds[0].children, Some(id));
      AddTreesForward(f2, ds[1..], p);
    }
  }

  /** AddTrees keeps the arena well formed. */
  lemma {:induction false} AddTreesWF(f: Forest, ds: seq<Descriptor>, p: Option<LayerId>)
    requires WF(f) && (p.Some? ==> p.value < |f.nodes|)
    ensures WF(AddTrees(f, ds, p))
    decreases ds
  {
    if ds != [] {
      var id := |f.nodes|;
      var f1 := AddNode(f, ds[0], p);
      AttachWF(f, Node(ds[0].name, ds[0].radioGroup, ds[0].visible, p, []));
      var f2 := AddTrees(f1, ds[0].children, Some(id));
      AddTreesWF(f1, ds[0].children, Some(id));
      AddTreesWF(f2, ds[1..], p);
    }
  }

  /** The configuration rebuilt from the subtree of layer i. */
  ghost function Reconstruct(f: Forest, i: LayerId): Descriptor
    requires Forward(f) && i < |f.nodes|
    decreases |f.nodes| - i, 1
  {
    var n := f.nodes[i];
    Descriptor(n.name, n.radioGroup, n.visible, ReconstructAll(f, n.children))
  }

  /** The configurations rebuilt from the subtrees of `ids`. */
  ghost function ReconstructAll(f: Forest, ids: seq<LayerId>): seq<Descriptor>
    requires Forward(f) && Increasing(ids) && AllBelow(ids, |f.nodes|)
    decreases if ids == [] then 0 else |f.nodes| - ids[0], 2
  {
    if ids == [] then [] else [Reconstruct(f, ids[0])] + ReconstructAll(f, ids[1..])
  }

  lemma {:induction false} ReconstructStable(f: Forest, g: Forest, i: LayerId)
    requires Forward(f) && Forward(g) && i < |f.nodes| <= |g.nodes|
    requires forall j :: i <= j < |f.nodes| ==> g.nodes[j] == f.nodes[j]
    ensures Reconstruct(g, i) == Reconstruct(f, i)
    decreases |f.nodes| - i, 1
  {
    ReconstructAllStable(f, g, f.nodes[i].children, i);
  }

  lemma {:induction false} ReconstructAllStable(f: Forest, g: Forest, ids: seq<LayerId>, lo: nat)
    requires Forward(f) && Forward(g) && |f.nodes| <= |g.nodes|
    requires Increasing(ids) && AllBelow(ids, |f.nodes|) && forall k :: 0 <= k < |ids| ==> lo <= ids[k]
    requires forall j :: lo <= j < |f.nodes| ==> g.nodes[j] == f.nodes[j]
    ensures ReconstructAll(g, ids) == ReconstructAll(f, ids)
    decreases if ids == [] then 0 else |f.nodes| - ids[0], 2
  {
    if ids != [] {
      ReconstructStable(f, g, ids[0]);
      ReconstructAllStable(f, g, ids[1..], lo);
    }
  }

  /** The layers AddTrees attaches are well ordered and lie in the arena. */
  lemma AddTreesNewIds(f: Forest, ds: seq<Descriptor>, p: Option<LayerId>)
    requires Forward(f) && (p.Some? ==> p.value < |f.nodes|)
    ensures var r := AddTrees(f, ds, p);
      && Forward(r) && |Attached(f, p)| <= |Attached(r, p)|
      && Increasing(NewIds(f, r, p)) && AllBelow(NewIds(f, r, p), |r.nodes|)
  {
    var r := AddTrees(f, ds, p);
    AddTreesForward(f, ds, p);
    AddTreesAttached(f, ds, p);
    var a := Attached(r, p);
    assert Increasing(a) && AllBelow(a, |r.nodes|);
    var s := NewIds(f, r, p);
    assert forall k :: 0 <= k < |s| ==> s[k] == a[|Attached(f, p)| + k];
  }

  /** One step of AddTrees: the first tree is finished, with its new children, before the rest are added. */
  lemma AddTreesStepHead(f: Forest, ds: seq<Descriptor>, p: Option<LayerId>)
    requires (p.Some? ==> p.value < |f.nodes|) && ds != []
    ensures var id := |f.nodes|;
      var f1 := AddNode(f, ds[0], p);
      var f2 := AddTrees(f1, ds[0].children, Some(id));
      && id < |f2.nodes|
      && |Attached(f1, Some(id))| <= |Attached(f2, Some(id))|
      && f2.nodes[id] == Node(ds[0].name, ds[0].radioGroup, ds[0].visible, p, NewIds(f1, f2, Some(id)))
  {
    var id := |f.nodes|;
    var f1 := AddNode(f, ds[0], p);
    AddTreesFrame(f1, ds[0].children, Some(id));
    assert Attached(f1, Some(id)) == [];
  }

  /** One step of AddTrees: the rest are added after the first tree, and attached after it. */
  lemma AddTreesStepTail(f: Forest, ds: seq<Descriptor>, p: Option<LayerId>)
    requires (p.Some? ==> p.value < |f.nodes|) && ds != []
    ensures var id := |f.nodes|;
      var f1 := AddNode(f, ds[0], p);
      var f2 := AddTrees(f1, ds[0].children, Some(id));
      var r := AddTrees(f2, ds[1..], p);
      && r == AddTrees(f, ds, p)
      && (forall j :: id <= j < |f2.nodes| ==> r.nodes[j] == f2.nodes[j])
      && |Attached(f, p)| <= |Attached(r, p)|
      && |Attached(f2, p)| <= |Attached(r, p)|
      && NewIds(f, r, p) == [id] + NewIds(f2, r, p)
  {
    var id := |f.nodes|;
    var f1 := AddNode(f, ds[0], p);
    var f2 := AddTrees(f1, ds[0].children, Some(id));
    var r := AddTrees(f2, ds[1..], p);
    AddTreesFirstAttached(f, ds, p);
    AddTreesFrame(f2, ds[1..], p);
    AddTreesAttached(f2, ds[1..], p);
    SplitAfterPrefix(Attached(f, p), Attached(f2, p), Attached(r, p), id);
  }

  lemma SplitAfterPrefix(a: seq<LayerId>, a2: seq<LayerId>, ar: seq<LayerId>, id: LayerId)
    requires a2 == a + [id] && |a2| <= |ar| && ar[..|a2|] == a2
    ensures ar[|a|..] == [id] + ar[|a2|..]
  {
    assert ar[|a|] == a2[|a|];
  }

  /** Round trip: rebuilding the layers AddTrees attached gives back ds. */
  lemma {:induction false} AddTreesRoundTrip(f: Forest, ds: seq<Descriptor>, p: Option<LayerId>)
    requires Forward(f) && (p.Some? ==> p.value < |f.nodes|)
    ensures var r := AddTrees(f, ds, p);
      && Forward(r) && |Attached(f, p)| <= |Attached(r, p)|
      && Increasing(NewIds(f, r, p)) && AllBelow(NewIds(f, r, p), |r.nodes|)
      && ReconstructAll(r, NewIds(f, r, p)) == ds
    decreases ds
  {
    AddTreesNewIds(f, ds, p);
    if ds != [] {
      var id := |f.nodes|;
      var f1 := AddNode(f, ds[0], p);
      AttachForward(f, Node(ds[0].name, ds[0].radioGroup, ds[0].visible, p, []));
      var f2 := AddTrees(f1, ds[0].children, Some(id));
      var r := AddTrees(f2, ds[1..], p);
      AddTreesStepHead(f, ds, p);
      AddTreesStepTail(f, ds, p);
      AddTreesRoundTrip(f1, ds[0].children, Some(id));
      AddTreesRoundTrip(f2, ds[1..], p);
      ReconstructJoin(f2, r, id, NewIds(f1, f2, Some(id)), NewIds(f2, r, p), NewIds(f, r, p), ds);
    } else {
      assert NewIds(f, AddTrees(f, ds, p), p) == [];
    }
  }

  /** A finished subtree at id followed by further subtrees rebuilds to d followed by their configurations. */
  lemma ReconstructJoin(f2: Forest, r: Forest, id: LayerId, kids: seq<LayerId>,
                        rest: seq<LayerId>, all: seq<LayerId>, ds: seq<Descriptor>)
    requires Forward(f2) && Forward(r) && id < |f2.nodes| <= |r.nodes|
    requires forall j :: id <= j < |f2.nodes| ==> r.nodes[j] == f2.nodes[j]
    requires ds != [] && f2.nodes[id] == Node(ds[0].name, ds[0].radioGroup, ds[0].visible, f2.nodes[id].parent, kids)
    requires ReconstructAll(f2, kids) == ds[0].children
    requires Increasing(all) && AllBelow(all, |r.nodes|) && all == [id] + rest
    requires Increasing(rest) && AllBelow(rest, |r.nodes|) && ReconstructAll(r, rest) == ds[1..]
    ensures ReconstructAll(r, all) == ds
  {
    ReconstructStable(f2, r, id);
    ConsParts(id, rest, all);
    assert Reconstruct(r, id) == ds[0];
    HeadTail(ds);
  }

  /** The layers AddTrees attached, traversed in pre-order, are exactly the new arena positions in order. */
  lemma {:induction false} AddTreesPreorder(f: Forest, ds: seq<Descriptor>, p: Option<LayerId>)
    requires Forward(f) && (p.Some? ==> p.value < |f.nodes|)
    ensures var r := AddTrees(f, ds, p);
      && Forward(r) && |Attached(f, p)| <= |Attached(r, p)|
      && Increasing(NewIds(f, r, p)) && AllBelow(NewIds(f, r, p), |r.nodes|)
      && FlattenAll(r, NewIds(f, r, p)) == Range(|f.nodes|, |r.nodes|)
    decreases ds
  {
    AddTreesNewIds(f, ds, p);
    if ds != [] {
      var id := |f.nodes|;
      var f1 := AddNode(f, ds[0], p);
      AttachForward(f, Node(ds[0].name, ds[0].radioGroup, ds[0].visible, p, []));
      var f2 := AddTrees(f1, ds[0].children, Some(id));
      var r := AddTrees(f2, ds[1..], p);
      AddTreesForward(f1, ds[0].children, Some(id));
      AddTreesStepTail(f, ds, p);
      AddTreesPreorder(f2, ds[1..], p);
      assert FlattenTree(r, id) == Range(id, |f2.nodes|) by {
        AddTreesStepHead(f, ds, p);
        AddTreesPreorder(f1, ds[0].children, Some(id));
        TreeFilled(f2, r, id, |f1.nodes|, NewIds(f1, f2, Some(id)));
      }
      FlattenJoin(r, id, |f2.nodes|, NewIds(f2, r, p), NewIds(f, r, p));
    } else {
      assert NewIds(f, AddTrees(f, ds, p), p) == [];
    }
  }

  /** A subtree at id that fills [id, mid) followed by subtrees filling [mid, n) flattens to [id, n). */
  lemma FlattenJoin(r: Forest, id: LayerId, mid: nat, rest: seq<LayerId>, all: seq<LayerId>)
    requires Forward(r) && id < mid <= |r.nodes| && all == [id] + rest
    requires Increasing(all) && AllBelow(all, |r.nodes|) && Increasing(rest) && AllBelow(rest, |r.nodes|)
    requires FlattenTree(r, id) == Range(id, mid) && FlattenAll(r, rest) == Range(mid, |r.nodes|)
    ensures FlattenAll(r, all) == Range(id, |r.nodes|)
  {
    FlattenAllCons(r, id, rest, all);
    RangeJoin(FlattenAll(r, all), FlattenTree(r, id), FlattenAll(r, rest), id, mid, |r.nodes|);
  }

  /** A finished subtree at id filling [id, |f2|) keeps flattening to that range in the larger arena r. */
  lemma TreeFilled(f2: Forest, r: Forest, id: LayerId, lo: nat, kids: seq<LayerId>)
    requires Forward(f2) && Forward(r) && id < |f2.nodes| <= |r.nodes| && lo == id + 1
    requires forall j :: id <= j < |f2.nodes| ==> r.nodes[j] == f2.nodes[j]
    requires f2.nodes[id].children == kids && FlattenAll(f2, kids) == Range(lo, |f2.nodes|)
    ensures FlattenTree(r, id) == Range(id, |f2.nodes|)
  {
    FlattenTreeRange(f2, id, kids);
    FlattenTreeStable(f2, r, id);
  }

  /** Flattening a list with head id is flattening id's subtree, then the rest. */
  lemma FlattenAllCons(f: Forest, id: LayerId, rest: seq<LayerId>, all: seq<LayerId>)
    requires Forward(f) && id < |f.nodes| && all == [id] + rest
    requires Increasing(all) && AllBelow(all, |f.nodes|) && Increasing(rest) && AllBelow(rest, |f.nodes|)
    ensures FlattenAll(f, all) == FlattenTree(f, id) + FlattenAll(f, rest)
  {
    ConsParts(id, rest, all);
  }

  /** A layer whose children flatten to the positions after it up to n flattens to [id, n). */
  lemma FlattenTreeRange(f: Forest, id: LayerId, kids: seq<LayerId>)
    requires Forward(f) && id < |f.nodes| && f.nodes[id].children == kids
    requires FlattenAll(f, kids) == Range(id + 1, |f.nodes|)
    ensures FlattenTree(f, id) == Range(id, |f.nodes|)
  {
    RangeCons(id, |f.nodes|);
  }

  /** ConfigReader.readConfig: the forest of the configuration ds. */
  function ReadConfig(ds: seq<Descriptor>): (r: Forest)
    ensures WF(r)
    ensures NodeNames(r.nodes) == FlatNames(ds)
    ensures |r.roots| == |ds|
  {
    AddTreesWF(Forest([], []), ds, None);
    AddTreesNames(Forest([], []), ds, None);
    AddTreesAttached(Forest([], []), ds, None);
    AddTrees(Forest([], []), ds, None)
  }

  /** The configuration can be read back from the layer forest: readConfig loses nothing. */
  lemma ReadConfigRoundTrip(ds: seq<Descriptor>)
    ensures ReconstructAll(ReadConfig(ds), ReadConfig(ds).roots) == ds
  {
    var e := Forest([], []);
    AddTreesRoundTrip(e, ds, None);
    assert NewIds(e, ReadConfig(ds), None) == ReadConfig(ds).roots;
  }

  /** Arena positions are pre-order positions: flattening the forest lists 0, 1, ..., n-1. */
  lemma ReadConfigPreorder(ds: seq<Descriptor>)
    ensures FlattenAll(ReadConfig(ds), ReadConfig(ds).roots) == Range(0, |ReadConfig(ds).nodes|)
  {
    var e := Forest([], []);
    AddTreesPreorder(e, ds, None);
    assert NewIds(e, ReadConfig(ds), None) == ReadConfig(ds).roots;
  }
}
