/**
 * LayerService: the layer forest read from a configuration, a name index,
 * the current visibility of every layer, the callback registry and the log
 * of callback invocations.  A layer is referred to by its arena position;
 * Layer.setVisible, getVisible and getName become methods and functions of
 * the service taking that position.
 */
module LayerServices {
  import opened Wrappers
  import opened Forests
  import opened ConfigReader
  import opened Visibility
  import opened Events
  import opened Seqs

  /** The name index: every name maps to the last layer carrying it. */
  method BuildIndex(f: Forest) returns (index: map<string, LayerId>)
    ensures forall j :: 0 <= j < |f.nodes| ==> f.nodes[j].name in index
    ensures forall k :: k in index ==> index[k] < |f.nodes| && f.nodes[index[k]].name == k
    ensures forall k, j :: k in index && index[k] < j < |f.nodes| ==> f.nodes[j].name != k
  {
    index := map[];
    var i := 0;
    while i < |f.nodes|
      invariant 0 <= i <= |f.nodes|
      invariant forall j :: 0 <= j < i ==> f.nodes[j].name in index
      invariant forall k :: k in index ==> index[k] < i && f.nodes[index[k]].name == k
      invariant forall k, j :: k in index && index[k] < j < i ==> f.nodes[j].name != k
    {
      index := index[f.nodes[i].name := i];
      i := i + 1;
    }
  }

  /** The position of the first occurrence of x in s, if any. */
  method IndexOf(s: seq<CallbackId>, x: CallbackId) returns (r: Option<nat>)
    ensures r.None? <==> x !in s
    ensures r.Some? ==> r.value < |s| && s[r.value] == x && x !in s[..r.value]
  {
    var i := 0;
    while i < |s|
      invariant 0 <= i <= |s| && x !in s[..i]
    {
      if s[i] == x {
        return Some(i);
      }
      assert s[..i + 1] == s[..i] + [s[i]];
      i := i + 1;
    }
    assert s[..i] == s;
    return None;
  }

  /** Removing the first occurrence found by position is removing it by value. */
  lemma {:induction false} WithoutAt(s: seq<CallbackId>, cb: CallbackId, i: nat)
    requires i < |s| && s[i] == cb && cb !in s[..i]
    ensures Without(s, cb) == s[..i] + s[i + 1..]
  {
    if i > 0 {
      assert s[1..][..i - 1] == s[1..i];
      assert s[..i] == [s[0]] + s[1..i];
      WithoutAt(s[1..], cb, i - 1);
      assert s[1..][i..] == s[i + 1..];
    }
  }

  /** The subtrees of the stacked id lists, the top of the stack (the last list) first. */
  ghost function FlattenStack(f: Forest, stack: seq<seq<LayerId>>): seq<LayerId>
    requires Forward(f)
    requires forall k :: 0 <= k < |stack| ==> Increasing(stack[k]) && AllBelow(stack[k], |f.nodes|)
    decreases |stack|
  {
    if stack == [] then []
    else FlattenAll(f, stack[|stack| - 1]) + FlattenStack(f, stack[..|stack| - 1])
  }

  /** An exhausted list is dropped from the top of the stack. */
  lemma FlattenStackPop(f: Forest, below: seq<seq<LayerId>>)
    requires Forward(f)
    requires forall k :: 0 <= k < |below| ==> Increasing(below[k]) && AllBelow(below[k], |f.nodes|)
    ensures FlattenStack(f, below + [[]]) == FlattenStack(f, below)
  {
    assert (below + [[]])[..|below|] == below;
  }

  /** Visiting the first layer of the top list: the layer, then its children, then the rest. */
  lemma FlattenStackVisit(f: Forest, below: seq<seq<LayerId>>, top: seq<LayerId>)
    requires Forward(f)
    requires forall k :: 0 <= k < |below| ==> Increasing(below[k]) && AllBelow(below[k], |f.nodes|)
    requires Increasing(top) && AllBelow(top, |f.nodes|) && top != []
    ensures var next := below + [top[1..]] + [f.nodes[top[0]].children];
      && (forall k :: 0 <= k < |next| ==> Increasing(next[k]) && AllBelow(next[k], |f.nodes|))
      && FlattenStack(f, below + [top]) == [top[0]] + FlattenStack(f, next)
  {
    var mid := below + [top[1..]];
    var ch := f.nodes[top[0]].children;
    var next := mid + [ch];
    SnocParts(below, top, below + [top]);
    SnocParts(below, top[1..], mid);
    SnocParts(mid, ch, next);
    assert FlattenStack(f, next) == FlattenAll(f, ch) + (FlattenAll(f, top[1..]) + FlattenStack(f, below));
    assert FlattenAll(f, top) == [top[0]] + FlattenAll(f, ch) + FlattenAll(f, top[1..]);
    AppendAssoc(FlattenAll(f, ch), FlattenAll(f, top[1..]), FlattenStack(f, below));
    ConcatAssoc([top[0]], FlattenAll(f, ch), FlattenAll(f, top[1..]), FlattenStack(f, below));
  }

  /** The positions of the layers in group `name`, in increasing order. */
  method GroupMembers(nodes: seq<Node>, name: Option<string>) returns (found: seq<LayerId>)
    ensures Increasing(found) && AllBelow(found, |nodes|)
    ensures forall i: nat :: i in found <==> i < |nodes| && nodes[i].radioGroup == name
  {
    found := [];
    var j := 0;
    while j < |nodes|
      invariant 0 <= j <= |nodes|
      invariant Increasing(found) && AllBelow(found, j)
      invariant forall i: nat :: i in found <==> i < j && nodes[i].radioGroup == name
    {
      if nodes[j].radioGroup == name {
        IncreasingSnoc(found, j);
        found := found + [j];
      }
      j := j + 1;
    }
  }

  /** A depth-first walk with an explicit stack, collecting every layer in pre-order. */
  method FlattenForest(f: Forest) returns (r: seq<LayerId>)
    requires Forward(f)
    ensures r == FlattenAll(f, f.roots)
  {
    r := [];
    var stack := [f.roots];
    while stack != []
      invariant forall k :: 0 <= k < |stack| ==> Increasing(stack[k]) && AllBelow(stack[k], |f.nodes|)
      invariant r + FlattenStack(f, stack) == FlattenAll(f, f.roots)
      decreases |FlattenStack(f, stack)|, |stack|
    {
      var top := stack[|stack| - 1];
      var below := stack[..|stack| - 1];
      LastParts(stack);
      if top == [] {
        FlattenStackPop(f, below);
        stack := below;
      } else {
        FlattenStackVisit(f, below, top);
        AppendAssoc(r, [top[0]], FlattenStack(f, below + [top[1..]] + [f.nodes[top[0]].children]));
        r := r + [top[0]];
        stack := below + [top[1..]] + [f.nodes[top[0]].children];
      }
    }
    AppendEmpty(r);
  }

  class LayerService {
    const config: seq<Descriptor>
    const forest: Forest
    const index: map<string, LayerId>
    /** The visibility of every layer, by position. */
    var visible: seq<bool>
    /** The registered callbacks, per event name. */
    var callbacks: map<string, seq<CallbackId>>
    /** Every callback invocation so far, in order. */
    var calls: seq<Call>

    ghost predicate Valid()
      reads this
    {
      && forest == ReadConfig(config)
      && NamesDistinct(config)
      && (forall j :: 0 <= j < |forest.nodes| ==> forest.nodes[j].name in index && index[forest.nodes[j].name] == j)
      && (forall k :: k in index ==> index[k] < |forest.nodes| && forest.nodes[index[k]].name == k)
      && |visible| == |forest.nodes|
      && (forall e :: e in callbacks ==> NoDup(callbacks[e]))
    }

    /** new LayerService(ConfigReader.readConfig(config)) */
    constructor (config: seq<Descriptor>)
      requires NamesDistinct(config)
      ensures Valid() && this.config == config
      ensures |visible| == |forest.nodes| && forall j :: 0 <= j < |forest.nodes| ==> visible[j] == forest.nodes[j].visible
      ensures callbacks == map[] && calls == []
    {
      this.config := config;
      var f := ReadConfig(config);
      forest := f;
      var ix := BuildIndex(f);
      index := ix;
      visible := seq(|f.nodes|, j requires 0 <= j < |f.nodes| => f.nodes[j].visible);
      callbacks := map[];
      calls := [];
      new;
      forall j | 0 <= j < |f.nodes| ensures index[f.nodes[j].name] == j {
        var m := index[f.nodes[j].name];
        assert NodeNames(f.nodes)[m] == NodeNames(f.nodes)[j];
      }
    }

    /** getLayers: the top-level layers, which rebuild the whole configuration in order. */
    function GetLayers(): (r: seq<LayerId>)
      reads this
      requires Valid()
      ensures |r| == |config|
      ensures Increasing(r) && AllBelow(r, |forest.nodes|)
      ensures forall k :: 0 <= k < |r| ==> forest.nodes[r[k]].parent.None?
      ensures ReconstructAll(forest, r) == config
    {
      ReadConfigRoundTrip(config);
      forest.roots
    }

    /** getLayersAsFlatArray: a depth-first walk collecting every layer in pre-order. */
    method GetLayersAsFlatArray() returns (r: seq<LayerId>)
      requires Valid()
      ensures r == FlattenAll(forest, forest.roots)
      ensures r == Range(0, |forest.nodes|)
      ensures |r| == |FlatNames(config)| && forall k :: 0 <= k < |r| ==> forest.nodes[r[k]].name == FlatNames(config)[k]
    {
      r := FlattenForest(forest);
      ReadConfigPreorder(config);
    }

    /** getLayer: the layer carrying the name, if there is one. */
    function GetLayer(name: string): (r: Option<LayerId>)
      reads this
      requires Valid()
      ensures r.Some? <==> name in FlatNames(config)
      ensures r.Some? ==> r.value < |forest.nodes| && forest.nodes[r.value].name == name
    {
      assert forall j :: 0 <= j < |forest.nodes| ==> NodeNames(forest.nodes)[j] == forest.nodes[j].name;
      if name in index then Some(index[name]) else None
    }

    /** Layer.getName */
    function GetName(id: LayerId): (r: string)
      reads this
      requires Valid() && id < |forest.nodes|
      ensures GetLayer(r) == Some(id)
    {
      forest.nodes[id].name
    }

    /** Layer.getVisible */
    function GetVisible(id: LayerId): bool
      reads this
      requires Valid() && id < |forest.nodes|
    {
      visible[id]
    }

    /** getParent: the layer whose children contain id; none for a top-level layer. */
    function GetParent(id: LayerId): (r: Option<LayerId>)
      reads this
      requires Valid() && id < |forest.nodes|
      ensures r.None? <==> id in forest.roots
      ensures r.Some? ==> r.value < |forest.nodes| && id in forest.nodes[r.value].children
      ensures forall q :: 0 <= q < |forest.nodes| && id in forest.nodes[q].children ==> r == Some(q)
    {
      assert WF(forest);
      forest.nodes[id].parent
    }

    /** getRadioGroupLayers: no answer without a group name, else every layer of the group in flat order. */
    method GetRadioGroupLayers(name: Option<string>) returns (r: Option<seq<LayerId>>)
      requires Valid()
      ensures r.None? <==> !HasGroup(name)
      ensures r.Some? ==> Increasing(r.value) && AllBelow(r.value, |forest.nodes|)
      ensures r.Some? ==> forall j: nat :: j in r.value <==> j < |forest.nodes| && forest.nodes[j].radioGroup == name
    {
      if !HasGroup(name) {
        return None;
      }
      var found := GroupMembers(forest.nodes, name);
      return Some(found);
    }

    /** on: register cb for event e, at most once. */
    method On(e: string, cb: CallbackId)
      requires Valid()
      modifies this
      ensures Valid()
      ensures callbacks == old(callbacks)[e := Added(Listeners(old(callbacks), e), cb)]
      ensures visible == old(visible) && calls == old(calls)
    {
      var list := Listeners(callbacks, e);
      var i := IndexOf(list, cb);
      if i.None? {
        list := list + [cb];
      }
      callbacks := callbacks[e := list];
    }

    /** un: remove cb from event e; nothing happens when it is not registered. */
    method Un(e: string, cb: CallbackId)
      requires Valid()
      modifies this
      ensures Valid()
      ensures callbacks == if e in old(callbacks) then old(callbacks)[e := Without(old(callbacks)[e], cb)] else old(callbacks)
      ensures visible == old(visible) && calls == old(calls)
    {
      if e in callbacks {
        var list := callbacks[e];
        var i := IndexOf(list, cb);
        if i.Some? {
          WithoutAt(list, cb, i.value);
          callbacks := callbacks[e := list[..i.value] + list[i.value + 1..]];
        } else {
          callbacks := callbacks[e := list];
        }
      }
    }

    /** Layer.setVisible: update the forest, then report every changed layer to the 'change:visible' callbacks. */
    method SetVisible(id: LayerId, v: bool)
      requires Valid() && id < |forest.nodes|
      modifies this
      ensures Valid()
      ensures visible == SetVisibleSpec(forest, old(visible), id, v)
      ensures calls == old(calls) + Dispatch(Listeners(callbacks, ChangeVisible), ChangeVisible, NoticeOrder(old(visible), visible, NoticeRanks(forest, id)))
      ensures callbacks == old(callbacks)
    {
      var before := visible;
      SetSubtree(id, v);
      if v {
        RaiseAncestors(id);
      }
      Notify(before, NoticeRanks(forest, id));
    }

    /** The subtree of r takes the value v. */
    method SetSubtree(r: LayerId, v: bool)
      requires WF(forest) && |visible| == |forest.nodes| && r < |forest.nodes|
      modifies this
      ensures visible == Cascade(forest, old(visible), r, v)
      ensures callbacks == old(callbacks) && calls == old(calls)
      decreases |forest.nodes| - r
    {
      visible := visible[r := v];
      var ch := forest.nodes[r].children;
      var i := 0;
      while i < |ch|
        invariant 0 <= i <= |ch| && |visible| == |forest.nodes|
        invariant callbacks == old(callbacks) && calls == old(calls)
        invariant forall j :: 0 <= j < |forest.nodes| ==>
          visible[j] == if j == r || InSomeSubtree(forest, j, ch[..i]) then v else old(visible)[j]
      {
        ghost var mid := visible;
        SetSubtree(ch[i], v);
        CascadeChildStep(forest, old(visible), mid, visible, r, v, i);
        i := i + 1;
      }
      TakeAll(ch, i);
      CascadeChildrenDone(forest, old(visible), visible, r, v);
    }

    /** The subtrees of x's radio rivals are switched off, sibling by sibling. */
    method ExcludeRivals(x: LayerId)
      requires WF(forest) && |visible| == |forest.nodes| && x < |forest.nodes|
      modifies this
      ensures visible == Exclusive(forest, old(visible), x)
      ensures callbacks == old(callbacks) && calls == old(calls)
    {
      var s := Siblings(forest, x);
      var i := 0;
      while i < |s|
        invariant 0 <= i <= |s| && |visible| == |forest.nodes|
        invariant callbacks == old(callbacks) && calls == old(calls)
        invariant forall j :: 0 <= j < |forest.nodes| ==>
          visible[j] == if RivalAmong(forest, j, x, s[..i]) then false else old(visible)[j]
      {
        ghost var mid := visible;
        if IsRival(forest, s[i], x) {
          SetSubtree(s[i], false);
        }
        forall j | 0 <= j < |forest.nodes|
          ensures visible[j] == if RivalAmong(forest, j, x, s[..i + 1]) then false else old(visible)[j]
        {
          RivalAmongExtend(forest, j, x, s, i);
        }
        i := i + 1;
      }
      TakeAll(s, i);
      forall j | 0 <= j < |forest.nodes|
        ensures visible[j] == Exclusive(forest, old(visible), x)[j]
      {
      }
      Pointwise(visible, Exclusive(forest, old(visible), x));
    }

    /** From x up to its top-level ancestor: exclude the rivals, then switch the parent on. */
    method RaiseAncestors(id: LayerId)
      requires WF(forest) && |visible| == |forest.nodes| && id < |forest.nodes|
      modifies this
      ensures visible == Up(forest, old(visible), id)
      ensures callbacks == old(callbacks) && calls == old(calls)
    {
      var x: LayerId := id;
      while true
        invariant x < |forest.nodes| && |visible| == |forest.nodes|
        invariant Up(forest, visible, x) == Up(forest, old(visible), id)
        invariant callbacks == old(callbacks) && calls == old(calls)
        decreases x
      {
        ExcludeRivals(x);
        match forest.nodes[x].parent
        case None =>
          return;
        case Some(p) =>
          visible := visible[p := true];
          x := p;
      }
    }

    /**
     * One 'change:visible' notification per changed layer, grouped by notice
     * class (see NoticeRank) and in flat order within a class.
     */
    method Notify(before: seq<bool>, rank: seq<nat>)
      requires |before| == |visible| == |rank|
      modifies this
      ensures visible == old(visible) && callbacks == old(callbacks)
      ensures calls == old(calls) + Dispatch(Listeners(callbacks, ChangeVisible), ChangeVisible, NoticeOrder(before, visible, rank))
    {
      var cbs := Listeners(callbacks, ChangeVisible);
      var after := visible;
      ghost var sent: seq<LayerId> := [];
      var k := 0;
      while k < Ranks
        invariant k <= Ranks && visible == after && callbacks == old(callbacks)
        invariant sent == ChangedUpTo(before, after, rank, k)
        invariant calls == old(calls) + Dispatch(cbs, ChangeVisible, sent)
      {
        ghost var done := sent;
        var j := 0;
        assert done + RankChanged(before, after, rank, k, 0) == done;
        while j < |after|
          invariant j <= |after| && visible == after && callbacks == old(callbacks)
          invariant sent == done + RankChanged(before, after, rank, k, j)
          invariant calls == old(calls) + Dispatch(cbs, ChangeVisible, sent)
        {
          DispatchStep(cbs, ChangeVisible, done, before, after, rank, k, j);
          if rank[j] == k && before[j] != after[j] {
            Emit(ChangeVisible, j);
            AppendAssoc(old(calls), Dispatch(cbs, ChangeVisible, sent), CallsFor(cbs, ChangeVisible, j));
          }
          sent := done + RankChanged(before, after, rank, k, j + 1);
          j := j + 1;
        }
        ChangedUpToNext(before, after, rank, k, done);
        k := k + 1;
      }
    }

    /** Invoke every callback registered for e, in registration order, for layer l. */
    method Emit(e: string, l: LayerId)
      modifies this
      ensures calls == old(calls) + CallsFor(Listeners(callbacks, e), e, l)
      ensures visible == old(visible) && callbacks == old(callbacks)
    {
      var cbs := Listeners(callbacks, e);
      var k := 0;
      while k < |cbs|
        invariant 0 <= k <= |cbs| && visible == old(visible) && callbacks == old(callbacks)
        invariant calls == old(calls) + CallsFor(cbs[..k], e, l)
      {
        assert cbs[..k + 1][..k] == cbs[..k];
        calls := calls + [Call(cbs[k], e, l)];
        k := k + 1;
      }
      assert cbs[..k] == cbs;
    }
  }

  /** After the cascade into child i, the children up to i are covered. */
  lemma CascadeChildStep(f: Forest, vis: seq<bool>, mid: seq<bool>, w: seq<bool>, r: LayerId, v: bool, i: nat)
    requires WF(f) && |vis| == |f.nodes| && |mid| == |f.nodes| && r < |f.nodes| && i < |f.nodes[r].children|
    requires forall j :: 0 <= j < |f.nodes| ==>
      mid[j] == if j == r || InSomeSubtree(f, j, f.nodes[r].children[..i]) then v else vis[j]
    requires w == Cascade(f, mid, f.nodes[r].children[i], v)
    ensures forall j :: 0 <= j < |f.nodes| ==>
      w[j] == if j == r || InSomeSubtree(f, j, f.nodes[r].children[..i + 1]) then v else vis[j]
  {
    var ch := f.nodes[r].children;
    forall j | 0 <= j < |f.nodes|
      ensures w[j] == if j == r || InSomeSubtree(f, j, ch[..i + 1]) then v else vis[j]
    {
      InSomeSubtreeExtend(f, j, ch, i);
    }
  }

  /** Once every child is covered, the visibility is the cascade from r. */
  lemma CascadeChildrenDone(f: Forest, vis: seq<bool>, w: seq<bool>, r: LayerId, v: bool)
    requires WF(f) && |vis| == |f.nodes| && |w| == |f.nodes| && r < |f.nodes|
    requires forall j :: 0 <= j < |f.nodes| ==>
      w[j] == if j == r || InSomeSubtree(f, j, f.nodes[r].children) then v else vis[j]
    ensures w == Cascade(f, vis, r, v)
  {
    forall j | 0 <= j < |f.nodes|
      ensures w[j] == Cascade(f, vis, r, v)[j]
    {
      SubtreeByChildren(f, j, r);
    }
    Pointwise(w, Cascade(f, vis, r, v));
  }

  /** Considering one more sibling adds its subtree when it is a rival. */
  lemma RivalAmongExtend(f: Forest, j: LayerId, x: LayerId, s: seq<LayerId>, i: nat)
    requires WF(f) && j < |f.nodes| && x < |f.nodes| && AllBelow(s, |f.nodes|) && i < |s|
    ensures AllBelow(s[..i], |f.nodes|) && AllBelow(s[..i + 1], |f.nodes|)
    ensures RivalAmong(f, j, x, s[..i + 1]) <==>
      RivalAmong(f, j, x, s[..i]) || (IsRival(f, s[i], x) && InSubtree(f, j, s[i]))
  {
    assert forall k :: 0 <= k < i ==> s[..i + 1][k] == s[..i][k] == s[k];
    assert s[..i + 1][i] == s[i];
  }
}
