/**
 * The scenarios of LayerService.test.js, restated over the model and proved: the
 * example configuration is read into its concrete forest, and each
 * scenario states the outcome the test expects.
 */
module Examples {
  import opened Wrappers
  import opened Forests
  import opened ConfigReader
  import opened Visibility
  import opened Events
  import opened LayerServices
  import opened Seqs

  /** The configuration used throughout LayerService.test.js. */
  function LayerData(): seq<Descriptor> {
    [Descriptor("root"), Descriptor("1", children := OneChildren())]
  }

  function OneChildren(): seq<Descriptor> {
    [Descriptor("1-1", Some("radio")), Descriptor("1-2", Some("radio"), children := Leaves())]
  }

  function Leaves(): seq<Descriptor> {
    [Descriptor("1-2-1"), Descriptor("1-2-2"), Descriptor("2")]
  }

  /** The layer forest of LayerData: positions in pre-order. */
  function ExampleArena(): Forest {
    Forest([
      Node("root", None, false, None, []),
      Node("1", None, false, None, [2, 3]),
      Node("1-1", Some("radio"), false, Some(1), []),
      Node("1-2", Some("radio"), false, Some(1), [4, 5, 6]),
      Node("1-2-1", None, false, Some(3), []),
      Node("1-2-2", None, false, Some(3), []),
      Node("2", None, false, Some(3), [])], [0, 1])
  }

  /** The arena while it is being read: the first k layers, with the children attached so far. */
  function Partial(k: nat, c1: seq<LayerId>, c3: seq<LayerId>): Forest
    requires 2 <= k <= 7
  {
    var a := ExampleArena().nodes;
    var nodes := a[..k];
    var nodes := nodes[1 := a[1].(children := c1)];
    var nodes := if k > 3 then nodes[3 := a[3].(children := c3)] else nodes;
    Forest(nodes, [0, 1])
  }

  lemma AddTreesFirst(f: Forest, ds: seq<Descriptor>, p: Option<LayerId>, f1: Forest, f2: Forest)
    requires (p.Some? ==> p.value < |f.nodes|) && ds != []
    requires AddNode(f, ds[0], p) == f1 && AddTrees(f1, ds[0].children, Some(|f.nodes|)) == f2
    ensures AddTrees(f, ds, p) == AddTrees(f2, ds[1..], p)
  {
  }

  lemma StepRoot()
    ensures AddTrees(Forest([], []), LayerData(), None) == AddTrees(Forest([ExampleArena().nodes[0]], [0]), [LayerData()[1]], None)
  {
    var f1 := Forest([ExampleArena().nodes[0]], [0]);
    assert Attach(Forest([], []), ExampleArena().nodes[0]) == f1;
    AddTreesFirst(Forest([], []), LayerData(), None, f1, f1);
    assert LayerData()[1..] == [LayerData()[1]];
  }

  lemma StepLeaf1()
    ensures AddTrees(Partial(4, [2, 3], []), Leaves(), Some(3)) == AddTrees(Partial(5, [2, 3], [4]), Leaves()[1..], Some(3))
  {
    var f := Partial(4, [2, 3], []);
    var g := Partial(5, [2, 3], [4]);
    assert f.nodes[3].children + [4] == [4];
    assert Attach(f, ExampleArena().nodes[4]) == g;
    AddTreesFirst(f, Leaves(), Some(3), g, g);
  }

  lemma StepLeaf2()
    ensures AddTrees(Partial(5, [2, 3], [4]), Leaves()[1..], Some(3)) == AddTrees(Partial(6, [2, 3], [4, 5]), Leaves()[2..], Some(3))
  {
    var f := Partial(5, [2, 3], [4]);
    var g := Partial(6, [2, 3], [4, 5]);
    assert f.nodes[3].children + [5] == [4, 5];
    assert Attach(f, ExampleArena().nodes[5]) == g;
    AddTreesFirst(f, Leaves()[1..], Some(3), g, g);
    assert Leaves()[1..][1..] == Leaves()[2..];
  }

  lemma AttachLast()
    ensures Attach(Partial(6, [2, 3], [4, 5]), ExampleArena().nodes[6]) == ExampleArena()
  {
    var f := Partial(6, [2, 3], [4, 5]);
    assert f.nodes[3].children + [6] == [4, 5, 6];
    assert Partial(7, [2, 3], [4, 5, 6]) == ExampleArena();
  }

  lemma StepLeaf3()
    ensures AddTrees(Partial(6, [2, 3], [4, 5]), Leaves()[2..], Some(3)) == ExampleArena()
  {
    var f := Partial(6, [2, 3], [4, 5]);
    var g := ExampleArena();
    AttachLast();
    AddTreesFirst(f, Leaves()[2..], Some(3), g, g);
    assert Leaves()[2..][1..] == [];
  }

  lemma StepLeaves()
    ensures AddTrees(Partial(4, [2, 3], []), Leaves(), Some(3)) == ExampleArena()
  {
    StepLeaf1();
    StepLeaf2();
    StepLeaf3();
  }

  lemma AttachGroup()
    ensures AddNode(Partial(3, [2], []), OneChildren()[1..][0], Some(1)) == Partial(4, [2, 3], [])
  {
    var f := Partial(3, [2], []);
    assert f.nodes[1].children + [3] == [2, 3];
    assert Attach(f, ExampleArena().nodes[3].(children := [])) == Partial(4, [2, 3], []);
  }

  lemma StepGroup()
    ensures AddTrees(Partial(3, [2], []), OneChildren()[1..], Some(1)) == ExampleArena()
  {
    AttachGroup();
    StepLeaves();
    assert OneChildren()[1..][1..] == [];
    AddTreesFirst(Partial(3, [2], []), OneChildren()[1..], Some(1), Partial(4, [2, 3], []), ExampleArena());
  }

  lemma StepOne()
    ensures AddTrees(Forest([ExampleArena().nodes[0]], [0]), [LayerData()[1]], None) == ExampleArena()
  {
    var f := Forest([ExampleArena().nodes[0]], [0]);
    var g := Partial(2, [], []);
    assert Attach(f, ExampleArena().nodes[1].(children := [])) == g;
    var h := Partial(3, [2], []);
    assert g.nodes[1].children + [2] == [2];
    assert Attach(g, ExampleArena().nodes[2]) == h;
    AddTreesFirst(g, OneChildren(), Some(1), h, h);
    StepGroup();
    AddTreesFirst(f, [LayerData()[1]], None, g, ExampleArena());
  }

  lemma ExampleForest()
    ensures ReadConfig(LayerData()) == ExampleArena()
  {
    StepRoot();
    StepOne();
  }

  /** The names of the example, in pre-order; they are pairwise distinct. */
  lemma ExampleNames()
    ensures FlatNames(LayerData()) == ["root", "1", "1-1", "1-2", "1-2-1", "1-2-2", "2"]
    ensures NamesDistinct(LayerData())
  {
    ExampleFlatNames();
    var names: seq<string> := ["root", "1", "1-1", "1-2", "1-2-1", "1-2-2", "2"];
    forall i, j | 0 <= i < j < |names| ensures names[i] != names[j] {
      assert |names[i]| != |names[j]| || names[i][|names[i]| - 1] != names[j][|names[j]| - 1];
    }
  }

  lemma ExampleFlatNames()
    ensures FlatNames(LayerData()) == ["root", "1", "1-1", "1-2", "1-2-1", "1-2-2", "2"]
  {
    assert FlatNames(Leaves()) == ["1-2-1", "1-2-2", "2"];
    assert FlatNames(OneChildren()) == ["1-1", "1-2", "1-2-1", "1-2-2", "2"];
  }

  /** A service over the example configuration, every layer hidden, no callbacks. */
  method NewExampleService() returns (s: LayerService)
    ensures fresh(s) && s.Valid() && s.config == LayerData() && s.forest == ExampleArena()
    ensures |s.visible| == 7 && forall j :: 0 <= j < 7 ==> !s.visible[j]
    ensures s.callbacks == map[] && s.calls == []
  {
    ExampleNames();
    s := new LayerService(LayerData());
    ExampleForest();
    ArenaHidden();
  }

  /** The example forest is well formed. */
  lemma ArenaWF()
    ensures WF(ExampleArena())
  {
    ExampleForest();
  }

  /** No layer of the example starts visible. */
  lemma ArenaHidden()
    ensures |ExampleArena().nodes| == 7 && forall j :: 0 <= j < 7 ==> !ExampleArena().nodes[j].visible
  {
  }

  /** 'should instantiate LayerService class correctly' and 'should return the correct number of layers'. */
  method ExampleCounts() returns (flat: nat, top: nat)
    ensures flat == 7 && top == 2
  {
    var s := NewExampleService();
    var layers := s.GetLayersAsFlatArray();
    flat := |layers|;
    top := |s.GetLayers()|;
  }

  /** '42' is not a configured name. */
  lemma NotConfigured()
    ensures "42" !in FlatNames(LayerData())
  {
    ExampleNames();
    var names := FlatNames(LayerData());
    forall k | 0 <= k < |names| ensures names[k] != "42" {
      assert |names[k]| != 2;
    }
  }

  /** 'should return layers by name': every configured name is found, '42' is not. */
  method ExampleLookups() returns (root: bool, leaf: bool, group: bool, missing: bool)
    ensures root && leaf && group && !missing
  {
    var s := NewExampleService();
    ExampleNames();
    var a := s.GetLayer("root");
    NotConfigured();
    var b := s.GetLayer("1-2-2");
    var c := s.GetLayer("1-2");
    var d := s.GetLayer("42");
    root, leaf, group, missing := a.Some?, b.Some?, c.Some?, d.Some?;
  }

  /** 'should return the parent layer': the parent of '1-2' is '1'. */
  method ExampleParent() returns (name: Option<string>)
    ensures name == Some("1")
  {
    var s := NewExampleService();
    OneTwoConfigured();
    var child := s.GetLayer("1-2");
    OneTwoParent(s.forest, child.value);
    var parent := s.GetParent(child.value);
    name := if parent.Some? then Some(s.GetName(parent.value)) else None;
  }

  /** '1-2' is a configured name. */
  lemma OneTwoConfigured()
    ensures "1-2" in FlatNames(LayerData())
  {
    ExampleNames();
    assert FlatNames(LayerData())[3] == "1-2";
  }

  /** The layer named '1-2' is at position 3, below '1'. */
  lemma OneTwoParent(f: Forest, k: nat)
    requires f == ExampleArena() && k < |f.nodes| && f.nodes[k].name == "1-2"
    ensures k == 3 && f.nodes[k].parent == Some(1) && f.nodes[1].name == "1"
  {
    if k == 0 {} else if k == 1 {} else if k == 2 {} else if k == 3 {} else if k == 4 {} else if k == 5 {} else {}
  }

  /** An increasing list of positions within lo..hi holds at most hi - lo + 1 of them. */
  lemma {:induction false} IncreasingWithin(l: seq<LayerId>, lo: int, hi: int)
    requires Increasing(l) && forall k :: 0 <= k < |l| ==> lo <= l[k] <= hi
    ensures l != [] ==> |l| + lo <= hi + 1
  {
    if |l| > 1 {
      IncreasingWithin(l[1..], l[0] + 1, hi);
    }
  }

  /** An increasing list holding exactly two adjacent positions is those two. */
  lemma IncreasingPair(l: seq<LayerId>, x: LayerId)
    requires Increasing(l)
    requires forall j: nat :: j in l <==> j == x || j == x + 1
    ensures l == [x, x + 1]
  {
    assert x in l && x + 1 in l;
    var i :| 0 <= i < |l| && l[i] == x;
    var k :| 0 <= k < |l| && l[k] == x + 1;
    forall m | 0 <= m < |l| ensures x <= l[m] <= x + 1 {
      assert l[m] in l;
    }
    IncreasingWithin(l, x, x + 1);
    assert l[0] in l && l[1] in l;
  }

  /** A list of positions with no member is empty. */
  lemma NoMembers(l: seq<LayerId>)
    requires forall j: nat :: j !in l
    ensures l == []
  {
    if l != [] {
      FirstIn(l);
    }
  }

  lemma FirstIn(l: seq<LayerId>)
    requires l != []
    ensures l[0] in l
  {
  }

  /** The members of the example's radio groups: '1-1' and '1-2' are 'radio', nothing is 'no-radio'. */
  lemma ExampleGroups()
    ensures forall j: nat :: j < |ExampleArena().nodes| && ExampleArena().nodes[j].radioGroup == Some("radio") <==> j == 2 || j == 3
    ensures forall j: nat :: !(j < |ExampleArena().nodes| && ExampleArena().nodes[j].radioGroup == Some("no-radio"))
  {
    var a := ExampleArena().nodes;
    forall j: nat | j < |a| ensures a[j].radioGroup == Some("radio") <==> j == 2 || j == 3 {
      if j == 0 {} else if j == 1 {} else if j == 2 {} else if j == 3 {} else if j == 4 {} else if j == 5 {} else {}
    }
    forall j: nat | j < |a| ensures a[j].radioGroup != Some("no-radio") {
      if j == 0 {} else if j == 1 {} else if j == 2 {} else if j == 3 {} else if j == 4 {} else if j == 5 {} else {}
    }
  }

  /** The layers of the example in group 'radio', in increasing order, are '1-1' and '1-2'. */
  lemma RadioMembers(f: Forest, l: seq<LayerId>)
    requires f == ExampleArena()
    requires Increasing(l) && forall j: nat :: j in l <==> j < |f.nodes| && f.nodes[j].radioGroup == Some("radio")
    ensures l == [2, 3]
  {
    ExampleGroups();
    IncreasingPair(l, 2);
  }

  /** No layer of the example is in group 'no-radio'. */
  lemma NoRadioMembers(f: Forest, l: seq<LayerId>)
    requires f == ExampleArena()
    requires forall j: nat :: j in l <==> j < |f.nodes| && f.nodes[j].radioGroup == Some("no-radio")
    ensures l == []
  {
    ExampleGroups();
    NoMembers(l);
  }

  /** 'should return null if no radio name is given'. */
  method ExampleNoGroup() returns (none: Option<seq<LayerId>>)
    ensures none.None?
  {
    var s := NewExampleService();
    none := s.GetRadioGroupLayers(None);
  }

  /** 'should return radio layers': the 'radio' group holds '1-1' and '1-2'. */
  method ExampleRadioGroup() returns (radio: Option<seq<LayerId>>)
    ensures radio == Some([2, 3])
  {
    var s := NewExampleService();
    var r := s.GetRadioGroupLayers(Some("radio"));
    RadioMembers(s.forest, r.value);
    radio := r;
  }

  /** 'should return radio layers': no layer is in the 'no-radio' group. */
  method ExampleEmptyGroup() returns (noRadio: Option<seq<LayerId>>)
    ensures noRadio == Some([])
  {
    var s := NewExampleService();
    var n := s.GetRadioGroupLayers(Some("no-radio"));
    NoRadioMembers(s.forest, n.value);
    noRadio := n;
  }

  /** 'should toggle radio layers': showing '1-2' hides its radio sibling '1-1'. */
  method ExampleRadioToggle() returns (first: bool, afterwards: bool)
    ensures first && !afterwards
  {
    var s := NewExampleService();
    RadioToggle(s.forest, s.visible);
    s.SetVisible(2, true);
    first := s.GetVisible(2);
    s.SetVisible(3, true);
    afterwards := s.GetVisible(2);
  }

  /** Showing '1-1' shows it; showing '1-2' afterwards hides '1-1' again. */
  lemma RadioToggle(f: Forest, vis: seq<bool>)
    requires f == ExampleArena() && |vis| == 7
    ensures WF(f)
    ensures var once := SetVisibleSpec(f, vis, 2, true);
      once[2] && !SetVisibleSpec(f, once, 3, true)[2]
  {
    ArenaWF();
    SetVisibleCascades(f, vis, 2, true, 2);
    SetVisibleExcludesRivals(f, SetVisibleSpec(f, vis, 2, true), 3, 3, 2, 2);
  }

  /** 'should toggle child layers': showing '1-2' shows '1-2-1', '1-2-2' and '2'. */
  method ExampleCascade() returns (a: bool, b: bool, c: bool)
    ensures a && b && c
  {
    var s := NewExampleService();
    Cascades(s.forest, s.visible);
    s.SetVisible(3, true);
    a := s.GetVisible(4);
    b := s.GetVisible(5);
    c := s.GetVisible(6);
  }

  /** Showing '1-2' shows its three children. */
  lemma Cascades(f: Forest, vis: seq<bool>)
    requires f == ExampleArena() && |vis| == 7
    ensures WF(f)
    ensures var w := SetVisibleSpec(f, vis, 3, true); w[4] && w[5] && w[6]
  {
    ArenaWF();
    SetVisibleCascades(f, vis, 3, true, 4);
    SetVisibleCascades(f, vis, 3, true, 5);
    SetVisibleCascades(f, vis, 3, true, 6);
  }

  /** The layers '2' lies below: itself, '1-2' and '1'. */
  lemma LeafPath(r: LayerId)
    requires r < 7
    ensures WF(ExampleArena())
    ensures InSubtree(ExampleArena(), 6, r) <==> r == 6 || r == 3 || r == 1
  {
    ArenaWF();
    var f := ExampleArena();
    assert InSubtree(f, 1, r) <==> r == 1;
    assert InSubtree(f, 3, r) <==> r == 3 || InSubtree(f, 1, r);
  }

  /** Showing '2' with every layer hidden shows exactly '1', '1-2' and '2'. */
  lemma ShowLeaf(vis: seq<bool>)
    requires |vis| == 7 && forall j :: 0 <= j < 7 ==> !vis[j]
    ensures WF(ExampleArena())
    ensures forall j :: 0 <= j < 7 ==> (SetVisibleSpec(ExampleArena(), vis, 6, true)[j] <==> j == 1 || j == 3 || j == 6)
  {
    ArenaWF();
    forall j | 0 <= j < 7 ensures SetVisibleSpec(ExampleArena(), vis, 6, true)[j] <==> j == 1 || j == 3 || j == 6 {
      ShowLeafAt(vis, j);
    }
  }

  lemma ShowLeafAt(vis: seq<bool>, j: LayerId)
    requires |vis| == 7 && forall j :: 0 <= j < 7 ==> !vis[j]
    requires j < 7
    ensures WF(ExampleArena())
    ensures SetVisibleSpec(ExampleArena(), vis, 6, true)[j] <==> j == 1 || j == 3 || j == 6
  {
    ArenaWF();
    var f := ExampleArena();
    LeafPath(j);
    if j == 6 {
      SetVisibleCascades(f, vis, 6, true, j);
    } else if j == 1 || j == 3 {
      SetVisibleRaisesAncestors(f, vis, 6, j);
    } else if SetVisibleSpec(f, vis, 6, true)[j] {
      SetVisibleShowsOnlyPath(f, vis, 6, j);
      SubtreeAfterRoot(f, j, 6);
    }
  }

  /** The notice classes for setting '2': itself, then '1' and '1-2' above it; the rest would count as rivals' layers. */
  lemma LeafRanks(f: Forest)
    requires f == ExampleArena()
    ensures WF(f)
    ensures var r := NoticeRanks(f, 6); r[0] == 1 && r[1] == 3 && r[2] == 1 && r[3] == 3 && r[4] == 1 && r[5] == 1 && r[6] == 0
  {
    ArenaWF();
    LeafRankAt(f, 0);
    LeafRankAt(f, 1);
    LeafRankAt(f, 2);
    LeafRankAt(f, 3);
    LeafRankAt(f, 4);
    LeafRankAt(f, 5);
    LeafRankAt(f, 6);
  }

  lemma LeafRankAt(f: Forest, j: LayerId)
    requires f == ExampleArena() && j < 7
    ensures WF(f) && NoticeRank(f, 6, j) == if j == 6 then 0 else if j == 1 || j == 3 then 3 else 1
  {
    LeafPath(j);
    if j != 6 && InSubtree(f, j, 6) {
      SubtreeAfterRoot(f, j, 6);
    }
  }

  /** From all hidden, with '1', '1-2' and '2' shown: '2' is reported first, then '1' and '1-2'. */
  lemma LeafOrder(rank: seq<nat>)
    requires |rank| == 7 && rank[0] == 1 && rank[1] == 3 && rank[2] == 1 && rank[3] == 3 && rank[4] == 1 && rank[5] == 1 && rank[6] == 0
    ensures NoticeOrder([false, false, false, false, false, false, false],
                        [false, true, false, true, false, false, true],
                        rank) == [6, 1, 3]
  {
    var before := [false, false, false, false, false, false, false];
    var after := [false, true, false, true, false, false, true];
    var lit := [1, 3, 1, 3, 1, 1, 0];
    assert rank == lit;
    assert RankChanged(before, after, lit, 0, 7) == [6];
    assert RankChanged(before, after, lit, 1, 7) == [];
    assert RankChanged(before, after, lit, 2, 7) == [];
    assert RankChanged(before, after, lit, 3, 7) == [1, 3];
    assert ChangedUpTo(before, after, lit, 4) == [6] + [] + [] + [1, 3];
  }

  /** Showing '2' with every layer hidden reports '2', then its ancestors '1' and '1-2'. */
  lemma LeafNotice(f: Forest, vis: seq<bool>)
    requires f == ExampleArena() && |vis| == 7 && forall j :: 0 <= j < 7 ==> !vis[j]
    ensures WF(f)
    ensures NoticeOrder(vis, SetVisibleSpec(f, vis, 6, true), NoticeRanks(f, 6)) == [6, 1, 3]
  {
    ShowLeaf(vis);
    LeafRanks(f);
    assert vis == [false, false, false, false, false, false, false];
    assert SetVisibleSpec(f, vis, 6, true) == [false, true, false, true, false, false, true];
    LeafOrder(NoticeRanks(f, 6));
  }

  /** The layers '1-2' lies below: itself and '1'. */
  lemma TogglePath(r: LayerId)
    requires r < 7
    ensures WF(ExampleArena())
    ensures InSubtree(ExampleArena(), 3, r) <==> r == 3 || r == 1
  {
    ArenaWF();
    assert InSubtree(ExampleArena(), 1, r) <==> r == 1;
  }

  /** The layers below '1-2': itself, '1-2-1', '1-2-2' and '2'. */
  lemma ToggleSubtree(j: LayerId)
    requires j < 7
    ensures WF(ExampleArena())
    ensures InSubtree(ExampleArena(), j, 3) <==> 3 <= j
  {
    ArenaWF();
    if InSubtree(ExampleArena(), j, 3) {
      SubtreeAfterRoot(ExampleArena(), j, 3);
    }
  }

  lemma ToggleRankAt(f: Forest, j: LayerId)
    requires f == ExampleArena() && j < 7
    ensures WF(f) && NoticeRank(f, 3, j) == if j == 3 then 0 else if 4 <= j then 2 else if j == 1 then 3 else 1
  {
    TogglePath(j);
    ToggleSubtree(j);
  }

  /** The notice classes for setting '1-2': itself, the rival '1-1' and the root, its subtree, then '1'. */
  lemma ToggleRanks(f: Forest)
    requires f == ExampleArena()
    ensures WF(f)
    ensures var r := NoticeRanks(f, 3); r[0] == 1 && r[1] == 3 && r[2] == 1 && r[3] == 0 && r[4] == 2 && r[5] == 2 && r[6] == 2
  {
    ArenaWF();
    ToggleRankAt(f, 0);
    ToggleRankAt(f, 1);
    ToggleRankAt(f, 2);
    ToggleRankAt(f, 3);
    ToggleRankAt(f, 4);
    ToggleRankAt(f, 5);
    ToggleRankAt(f, 6);
  }

  /** With '1' and '1-1' shown, showing '1-2' hides '1-1' and shows the subtree of '1-2'. */
  lemma ToggleShownAt(f: Forest, vis: seq<bool>, j: LayerId)
    requires f == ExampleArena() && vis == [false, true, true, false, false, false, false] && j < 7
    ensures WF(f)
    ensures SetVisibleSpec(f, vis, 3, true)[j] == [false, true, false, true, true, true, true][j]
  {
    ToggleSubtree(j);
    TogglePath(j);
    if 3 <= j {
      SetVisibleCascades(f, vis, 3, true, j);
    } else if j == 2 {
      SetVisibleExcludesRivals(f, vis, 3, 3, 2, 2);
    } else {
      SetVisiblePointwise(f, vis, 3, true, j);
    }
  }

  /** From that visibility, '1-2' is reported first, then '1-1', then '1-2-1', '1-2-2' and '2'. */
  lemma ToggleOrder(rank: seq<nat>)
    requires |rank| == 7 && rank[0] == 1 && rank[1] == 3 && rank[2] == 1 && rank[3] == 0 && rank[4] == 2 && rank[5] == 2 && rank[6] == 2
    ensures NoticeOrder([false, true, true, false, false, false, false],
                        [false, true, false, true, true, true, true],
                        rank) == [3, 2, 4, 5, 6]
  {
    var before := [false, true, true, false, false, false, false];
    var after := [false, true, false, true, true, true, true];
    var lit := [1, 3, 1, 0, 2, 2, 2];
    assert rank == lit;
    assert RankChanged(before, after, lit, 0, 7) == [3];
    assert RankChanged(before, after, lit, 1, 7) == [2];
    assert RankChanged(before, after, lit, 2, 7) == [4, 5, 6];
    assert RankChanged(before, after, lit, 3, 7) == [];
    assert ChangedUpTo(before, after, lit, 4) == [3] + [2] + [4, 5, 6] + [];
  }

  /**
   * The radio toggle of the test, notified: with '1' and '1-1' shown,
   * showing '1-2' reports '1-2' itself, then the rival '1-1' switched off,
   * then the descendants '1-2-1', '1-2-2' and '2'; '1' does not change.
   */
  lemma ToggleNotice(f: Forest, vis: seq<bool>)
    requires f == ExampleArena() && vis == [false, true, true, false, false, false, false]
    ensures WF(f)
    ensures NoticeOrder(vis, SetVisibleSpec(f, vis, 3, true), NoticeRanks(f, 3)) == [3, 2, 4, 5, 6]
  {
    ArenaWF();
    forall j | 0 <= j < 7
      ensures SetVisibleSpec(f, vis, 3, true)[j] == [false, true, false, true, true, true, true][j]
    {
      ToggleShownAt(f, vis, j);
    }
    assert SetVisibleSpec(f, vis, 3, true) == [false, true, false, true, true, true, true];
    ToggleRanks(f);
    ToggleOrder(NoticeRanks(f, 3));
  }

  /** One callback, three changed layers: three calls. */
  lemma ThreeCalls(cbs: seq<CallbackId>)
    requires |cbs| == 1
    ensures |Dispatch(cbs, ChangeVisible, [6, 1, 3])| == 3
  {
  }

  /** 'should call back on visibility changes': showing '2' changes '1', '1-2' and '2', so three calls. */
  method ExampleCallbackCount() returns (count: nat)
    ensures count == 3
  {
    var s := NewExampleService();
    s.On(ChangeVisible, 0);
    ghost var cbs := Listeners(s.callbacks, ChangeVisible);
    assert |cbs| == 1;
    LeafNotice(s.forest, s.visible);
    ghost var before := s.visible;
    s.SetVisible(6, true);
    assert s.calls == Dispatch(cbs, ChangeVisible, [6, 1, 3]);
    ThreeCalls(cbs);
    count := |s.calls|;
  }

  /** '#on() add a callback on event'. */
  method ExampleOn() returns (first: CallbackId)
    ensures first == 7
  {
    var s := NewExampleService();
    s.On("foo", 7);
    first := s.callbacks["foo"][0];
  }

  /** "#on() doesn't add twice the same callback". */
  method ExampleOnTwice() returns (size: nat, first: CallbackId)
    ensures size == 1 && first == 7
  {
    var s := NewExampleService();
    s.On("foo", 7);
    s.On("foo", 7);
    size := |s.callbacks["foo"]|;
    first := s.callbacks["foo"][0];
  }

  /** "#un() doesn't fail if callback doesn't exist": nothing changes. */
  method ExampleUnMissing() returns (same: bool)
    ensures same
  {
    var s := NewExampleService();
    s.Un("foo", 7);
    same := s.callbacks == map[];
  }

  /** '#un() remove a callback on event'. */
  method ExampleOnUn() returns (size: nat)
    ensures size == 0
  {
    var s := NewExampleService();
    s.On("foo", 7);
    s.Un("foo", 7);
    size := |s.callbacks["foo"]|;
  }
}
