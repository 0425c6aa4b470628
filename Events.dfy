/**
 * The observer registry of LayerService and the notifications it sends.
 * A callback is an opaque identity; invoking it is recorded as a Call in a
 * log rather than run.
 */
module Events {
  import opened Forests
  import opened Seqs

  type CallbackId = nat

  /** The event fired for every layer whose visibility changes. */
  const ChangeVisible: string := "change:visible"

  /** One invocation of a registered callback. */
  datatype Call = Call(callback: CallbackId, event: string, layer: LayerId)

  ghost predicate NoDup<T>(s: seq<T>) {
    forall i, j :: 0 <= i < j < |s| ==> s[i] != s[j]
  }

  /** The callbacks registered for e, in registration order. */
  function Listeners(callbacks: map<string, seq<CallbackId>>, e: string): seq<CallbackId> {
    if e in callbacks then callbacks[e] else []
  }

  /** The callback list after `on`: cb is appended unless it is already there. */
  function Added(s: seq<CallbackId>, cb: CallbackId): (r: seq<CallbackId>)
    ensures cb in r && forall c :: c in r <==> c in s || c == cb
    ensures NoDup(s) ==> NoDup(r)
    ensures |s| <= |r| <= |s| + 1 && r[..|s|] == s
  {
    if cb in s then s else s + [cb]
  }

  /** The callback list after `un`: the first occurrence of cb is removed. */
  function Without(s: seq<CallbackId>, cb: CallbackId): (r: seq<CallbackId>)
    ensures cb !in s ==> r == s
    ensures cb in s ==> |r| == |s| - 1
    ensures forall c :: c in r ==> c in s
    ensures forall c :: c in s && c != cb ==> c in r
    ensures NoDup(s) ==> NoDup(r) && cb !in r
  {
    if s == [] then []
    else if s[0] == cb then s[1..]
    else
      var r := [s[0]] + Without(s[1..], cb);
      assert NoDup(s) ==> NoDup(r) by {
        if NoDup(s) {
          assert s[0] !in s[1..];
          NoDupCons(s[0], Without(s[1..], cb));
        }
      }
      r
  }

  lemma NoDupCons<T>(x: T, t: seq<T>)
    requires x !in t && NoDup(t)
    ensures NoDup([x] + t)
  {
    forall i, j | 0 <= i < j < |[x] + t| ensures ([x] + t)[i] != ([x] + t)[j] {
      if i > 0 {
        assert ([x] + t)[i] == t[i - 1];
      }
      assert ([x] + t)[j] == t[j - 1];
    }
  }

  /** Registering a new callback and then removing it restores the list. */
  lemma {:induction false} WithoutAdded(s: seq<CallbackId>, cb: CallbackId)
    requires cb !in s
    ensures Without(Added(s, cb), cb) == s
  {
    var t := s + [cb];
    if s == [] {
      assert t[1..] == [];
    } else {
      assert t[0] == s[0] && t[1..] == s[1..] + [cb];
      WithoutAdded(s[1..], cb);
      assert Without(t, cb) == [s[0]] + s[1..];
      HeadTail(s);
    }
  }

  /** Each callback of cbs invoked once for event e and layer l, in registration order. */
  function CallsFor(cbs: seq<CallbackId>, e: string, l: LayerId): (r: seq<Call>)
    ensures |r| == |cbs|
  {
    if cbs == [] then [] else CallsFor(cbs[..|cbs| - 1], e, l) + [Call(cbs[|cbs| - 1], e, l)]
  }

  /** A call is made for l exactly when it is for event e and its callback is registered. */
  lemma {:induction false} CallsForMembers(cbs: seq<CallbackId>, e: string, l: LayerId, c: Call)
    ensures c in CallsFor(cbs, e, l) <==> c.event == e && c.layer == l && c.callback in cbs
  {
    if cbs != [] {
      var k := |cbs| - 1;
      CallsForMembers(cbs[..k], e, l, c);
      assert cbs == cbs[..k] + [cbs[k]];
    }
  }

  /** Event e dispatched to cbs once for each of the layers, in order. */
  function Dispatch(cbs: seq<CallbackId>, e: string, layers: seq<LayerId>): (r: seq<Call>)
    ensures |r| == |layers| * |cbs|
  {
    if layers == [] then []
    else
      var r := CallsFor(cbs, e, layers[0]) + Dispatch(cbs, e, layers[1..]);
      assert |layers| * |cbs| == |cbs| + (|layers| - 1) * |cbs|;
      r
  }

  /** A call is dispatched exactly when its layer is among the layers and its callback is registered. */
  lemma {:induction false} DispatchMembers(cbs: seq<CallbackId>, e: string, layers: seq<LayerId>, c: Call)
    ensures c in Dispatch(cbs, e, layers) <==> c.event == e && c.layer in layers && c.callback in cbs
  {
    if layers != [] {
      DispatchMembers(cbs, e, layers[1..], c);
      CallsForMembers(cbs, e, layers[0], c);
      HeadTail(layers);
      assert c.layer in layers <==> c.layer == layers[0] || c.layer in layers[1..];
    }
  }

  /** Dispatching over one more layer appends that layer's calls. */
  lemma {:induction false} DispatchSnoc(cbs: seq<CallbackId>, e: string, layers: seq<LayerId>, l: LayerId)
    ensures Dispatch(cbs, e, layers + [l]) == Dispatch(cbs, e, layers) + CallsFor(cbs, e, l)
  {
    var all := layers + [l];
    if layers == [] {
      assert all[1..] == [];
      AppendEmpty(CallsFor(cbs, e, l));
    } else {
      assert all[0] == layers[0] && all[1..] == layers[1..] + [l];
      DispatchSnoc(cbs, e, layers[1..], l);
      AppendAssoc(CallsFor(cbs, e, layers[0]), Dispatch(cbs, e, layers[1..]), CallsFor(cbs, e, l));
    }
  }

  /** Dispatching over two lists of layers is dispatching over each in turn. */
  lemma {:induction false} DispatchAppend(cbs: seq<CallbackId>, e: string, a: seq<LayerId>, b: seq<LayerId>)
    ensures Dispatch(cbs, e, a + b) == Dispatch(cbs, e, a) + Dispatch(cbs, e, b)
    decreases |b|
  {
    if b == [] {
      AppendEmpty(a);
      AppendEmpty(Dispatch(cbs, e, a));
    } else {
      var init := b[..|b| - 1];
      var l := b[|b| - 1];
      LastParts(b);
      DispatchAppend(cbs, e, a, init);
      DispatchSnoc(cbs, e, a + init, l);
      DispatchSnoc(cbs, e, init, l);
      AppendAssoc(a, init, [l]);
      AppendAssoc(Dispatch(cbs, e, a), Dispatch(cbs, e, init), CallsFor(cbs, e, l));
    }
  }

  /** The number of notice classes: every layer's rank is below it. */
  const Ranks: nat := 4

  /**
   * The positions below n of rank k where `before` and `after` differ, in
   * increasing order.
   */
  function RankChanged(before: seq<bool>, after: seq<bool>, rank: seq<nat>, k: nat, n: nat): seq<LayerId>
    requires |before| == |after| == |rank| && n <= |after|
  {
    if n == 0 then []
    else
      var last := if rank[n - 1] == k && before[n - 1] != after[n - 1] then [n - 1] else [];
      RankChanged(before, after, rank, k, n - 1) + last
  }

  /** The list of one rank is strictly increasing and holds positions below n only. */
  lemma {:induction false} RankChangedIncreasing(before: seq<bool>, after: seq<bool>, rank: seq<nat>, k: nat, n: nat)
    requires |before| == |after| == |rank| && n <= |after|
    ensures Increasing(RankChanged(before, after, rank, k, n)) && AllBelow(RankChanged(before, after, rank, k, n), n)
  {
    if n > 0 {
      RankChangedIncreasing(before, after, rank, k, n - 1);
    }
  }

  /** The changed positions of the ranks below k: rank by rank, each rank in position order. */
  function ChangedUpTo(before: seq<bool>, after: seq<bool>, rank: seq<nat>, k: nat): seq<LayerId>
    requires |before| == |after| == |rank|
  {
    if k == 0 then [] else ChangedUpTo(before, after, rank, k - 1) + RankChanged(before, after, rank, k - 1, |after|)
  }

  /** The order of the notifications: every changed position, by rank, then by position. */
  function NoticeOrder(before: seq<bool>, after: seq<bool>, rank: seq<nat>): seq<LayerId>
    requires |before| == |after| == |rank|
  {
    ChangedUpTo(before, after, rank, Ranks)
  }

  /**
   * Reporting position n (or passing over it) extends the calls of the
   * reports so far by exactly the callbacks for n (or by nothing).
   */
  lemma DispatchStep(cbs: seq<CallbackId>, e: string, done: seq<LayerId>, before: seq<bool>, after: seq<bool>, rank: seq<nat>, k: nat, n: nat)
    requires |before| == |after| == |rank| && n < |after|
    ensures rank[n] == k && before[n] != after[n] ==>
      Dispatch(cbs, e, done + RankChanged(before, after, rank, k, n + 1)) ==
      Dispatch(cbs, e, done + RankChanged(before, after, rank, k, n)) + CallsFor(cbs, e, n)
    ensures !(rank[n] == k && before[n] != after[n]) ==>
      done + RankChanged(before, after, rank, k, n + 1) == done + RankChanged(before, after, rank, k, n)
  {
    var prev := RankChanged(before, after, rank, k, n);
    if rank[n] == k && before[n] != after[n] {
      RankChangedDiff(before, after, rank, k, n, prev);
      AppendAssoc(done, prev, [n]);
      DispatchSnoc(cbs, e, done + prev, n);
    } else {
      RankChangedSame(before, after, rank, k, n, prev);
    }
  }

  /** Finishing rank k appends its whole list to the reports so far. */
  lemma ChangedUpToNext(before: seq<bool>, after: seq<bool>, rank: seq<nat>, k: nat, done: seq<LayerId>)
    requires |before| == |after| == |rank| && done == ChangedUpTo(before, after, rank, k)
    ensures ChangedUpTo(before, after, rank, k + 1) == done + RankChanged(before, after, rank, k, |after|)
  {
  }

  /** An unreported position adds nothing to its rank's list. */
  lemma RankChangedSame(before: seq<bool>, after: seq<bool>, rank: seq<nat>, k: nat, n: nat, prev: seq<LayerId>)
    requires |before| == |after| == |rank| && n < |after|
    requires !(rank[n] == k && before[n] != after[n])
    requires RankChanged(before, after, rank, k, n) == prev
    ensures RankChanged(before, after, rank, k, n + 1) == prev
  {
    AppendEmpty(prev);
  }

  /** A changed position of rank k is reported after the earlier ones of that rank. */
  lemma RankChangedDiff(before: seq<bool>, after: seq<bool>, rank: seq<nat>, k: nat, n: nat, prev: seq<LayerId>)
    requires |before| == |after| == |rank| && n < |after|
    requires rank[n] == k && before[n] != after[n]
    requires RankChanged(before, after, rank, k, n) == prev
    ensures RankChanged(before, after, rank, k, n + 1) == prev + [n]
  {
  }

  /** A position below n is in rank k's list exactly when it has rank k and changed. */
  lemma {:induction false} RankChangedMembers(before: seq<bool>, after: seq<bool>, rank: seq<nat>, k: nat, n: nat, j: nat)
    requires |before| == |after| == |rank| && n <= |after|
    ensures j in RankChanged(before, after, rank, k, n) <==> j < n && rank[j] == k && before[j] != after[j]
  {
    if n > 0 {
      RankChangedMembers(before, after, rank, k, n - 1, j);
    }
  }

  /** A position is among the ranks below k exactly when its rank is below k and it changed. */
  lemma {:induction false} ChangedUpToMembers(before: seq<bool>, after: seq<bool>, rank: seq<nat>, k: nat, j: nat)
    requires |before| == |after| == |rank|
    ensures j in ChangedUpTo(before, after, rank, k) <==> j < |after| && rank[j] < k && before[j] != after[j]
  {
    if k > 0 {
      var a := ChangedUpTo(before, after, rank, k - 1);
      var b := RankChanged(before, after, rank, k - 1, |after|);
      assert ChangedUpTo(before, after, rank, k) == a + b;
      assert j in a <==> j < |after| && rank[j] < k - 1 && before[j] != after[j] by {
        ChangedUpToMembers(before, after, rank, k - 1, j);
      }
      assert j in b <==> j < |after| && rank[j] == k - 1 && before[j] != after[j] by {
        RankChangedMembers(before, after, rank, k - 1, |after|, j);
      }
      assert j in a + b <==> j in a || j in b;
    }
  }

  /** Two lists without repeats and without common members join into one without repeats. */
  lemma NoDupAppend<T>(a: seq<T>, b: seq<T>, c: seq<T>)
    requires NoDup(a) && NoDup(b) && (forall x :: x in a ==> x !in b) && c == a + b
    ensures NoDup(c)
  {
    forall i, j | 0 <= i < j < |a + b| ensures (a + b)[i] != (a + b)[j] {
      if i < |a| && j >= |a| {
        assert (a + b)[i] in a && (a + b)[j] == b[j - |a|];
      } else if i >= |a| {
        assert (a + b)[i] == b[i - |a|] && (a + b)[j] == b[j - |a|];
      }
    }
  }

  /** No position is reported twice. */
  lemma {:induction false} ChangedUpToNoDup(before: seq<bool>, after: seq<bool>, rank: seq<nat>, k: nat)
    requires |before| == |after| == |rank|
    ensures NoDup(ChangedUpTo(before, after, rank, k))
  {
    if k > 0 {
      var a := ChangedUpTo(before, after, rank, k - 1);
      var b := RankChanged(before, after, rank, k - 1, |after|);
      assert NoDup(a) && NoDup(b) && forall x :: x in a ==> x !in b by {
        ChangedUpToNoDup(before, after, rank, k - 1);
        RankChangedNoDup(before, after, rank, k - 1, |after|);
        RanksApart(before, after, rank, k - 1);
      }
      NoDupAppend(a, b, ChangedUpTo(before, after, rank, k));
    }
  }

  /** An increasing list has no repeats. */
  lemma RankChangedNoDup(before: seq<bool>, after: seq<bool>, rank: seq<nat>, k: nat, n: nat)
    requires |before| == |after| == |rank| && n <= |after|
    ensures NoDup(RankChanged(before, after, rank, k, n))
  {
    var r := RankChanged(before, after, rank, k, n);
    RankChangedIncreasing(before, after, rank, k, n);
    assert Increasing(r);
  }

  /** The ranks below k share no position with rank k. */
  lemma RanksApart(before: seq<bool>, after: seq<bool>, rank: seq<nat>, k: nat)
    requires |before| == |after| == |rank|
    ensures forall x :: x in ChangedUpTo(before, after, rank, k) ==> x !in RankChanged(before, after, rank, k, |after|)
  {
    forall x | x in ChangedUpTo(before, after, rank, k)
      ensures x !in RankChanged(before, after, rank, k, |after|)
    {
      ChangedUpToMembers(before, after, rank, k, x);
      RankChangedMembers(before, after, rank, k, |after|, x);
    }
  }

  /**
   * When every rank is below Ranks, the notices name every changed position
   * once and nothing else.
   */
  lemma NoticeOrderMembers(before: seq<bool>, after: seq<bool>, rank: seq<nat>, j: nat)
    requires |before| == |after| == |rank|
    requires forall i :: 0 <= i < |rank| ==> rank[i] < Ranks
    ensures j in NoticeOrder(before, after, rank) <==> j < |after| && before[j] != after[j]
    ensures NoDup(NoticeOrder(before, after, rank))
  {
    ChangedUpToMembers(before, after, rank, Ranks, j);
    ChangedUpToNoDup(before, after, rank, Ranks);
  }

  /** Nothing changed, nobody is notified. */
  lemma NoticeNone(vis: seq<bool>, rank: seq<nat>)
    requires |vis| == |rank|
    ensures NoticeOrder(vis, vis, rank) == []
  {
    var r := NoticeOrder(vis, vis, rank);
    if r != [] {
      ChangedUpToMembers(vis, vis, rank, Ranks, r[0]);
      assert false;
    }
  }
}
