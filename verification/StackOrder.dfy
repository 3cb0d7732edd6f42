/**
Stacking order. The software renderer selects surfaces one by one, the GPU
compositor sorts them, and the pointer looks for the topmost one: all three
agree on one strict order of layer, z and table index.
*/
module StackOrder {
  import opened Base
  import opened SurfaceTable

  /** Surface `i` is stacked below surface `j`. */
  predicate Below(s: Surfaces, i: nat, j: nat)
    requires i < |s| && j < |s|
  {
    || KeyBelow(s[i], s[j])
    || (!KeyBelow(s[j], s[i]) && i < j)
  }

  /** The tuple comparison of layer and z. */
  predicate KeyBelow(a: Surface, b: Surface) {
    a.Layer() < b.Layer() || (a.Layer() == b.Layer() && a.z < b.z)
  }

  predicate Shown(s: Surfaces, i: nat) { i < |s| && s[i].live && s[i].visible }

  predicate Indices(s: Surfaces, t: seq<nat>) { forall k :: 0 <= k < |t| ==> t[k] < |s| }

  predicate InOrder(s: Surfaces, t: seq<nat>)
    requires Indices(s, t)
  {
    forall a, b :: 0 <= a < b < |t| ==> Below(s, t[a], t[b])
  }

  lemma BelowIsOrder(s: Surfaces, i: nat, j: nat, k: nat)
    requires i < |s| && j < |s| && k < |s|
    ensures !Below(s, i, i)
    ensures i != j ==> (Below(s, i, j) <==> !Below(s, j, i))
    ensures Below(s, i, j) && Below(s, j, k) ==> Below(s, i, k)
  {
  }

  /** There is only one way to list a set of surfaces in stacking order. */
  lemma {:induction false} OrderIsUnique(s: Surfaces, t: seq<nat>, u: seq<nat>)
    requires Indices(s, t) && Indices(s, u) && InOrder(s, t) && InOrder(s, u)
    requires forall i: nat :: i in t <==> i in u
    ensures t == u
  {
    assert (t != [] ==> t[0] in u) && (u != [] ==> u[0] in t);
    if t != [] && u != [] {
      FirstIsShared(s, t, u);
      forall i: nat ensures i in t[1..] <==> i in u[1..] {
        TailMembers(s, t, i);
        TailMembers(s, u, i);
      }
      OrderIsUnique(s, t[1..], u[1..]);
      assert t == [t[0]] + t[1..] && u == [u[0]] + u[1..];
    }
  }

  lemma FirstIsShared(s: Surfaces, t: seq<nat>, u: seq<nat>)
    requires Indices(s, t) && Indices(s, u) && InOrder(s, t) && InOrder(s, u)
    requires t != [] && u != [] && forall i: nat :: i in t <==> i in u
    ensures t[0] == u[0]
  {
    assert t[0] in u && u[0] in t;
    var a, b :| 0 <= a < |u| && u[a] == t[0] && 0 <= b < |t| && t[b] == u[0];
    assert a == 0 || Below(s, u[0], t[0]);
    assert b == 0 || Below(s, t[0], u[0]);
    BelowIsOrder(s, t[0], u[0], u[0]);
  }

  lemma TailMembers(s: Surfaces, t: seq<nat>, i: nat)
    requires Indices(s, t) && InOrder(s, t) && t != []
    ensures i in t[1..] <==> i in t && i != t[0]
  {
    if i in t[1..] {
      var k :| 0 <= k < |t[1..]| && t[1..][k] == i;
      assert Below(s, t[0], t[k + 1]);
    }
  }

  // The software renderer.

  /** The lowest surface not drawn yet, as found by one scan. */
  method SelectLowest(s: Surfaces, drawn: seq<bool>) returns (selected: Option<nat>)
    requires |drawn| == |s|
    ensures selected.None? <==> forall i: nat :: Shown(s, i) ==> drawn[i]
    ensures selected.Some? ==> Shown(s, selected.value) && !drawn[selected.value]
                               && forall i: nat :: Shown(s, i) && !drawn[i] && i != selected.value ==>
                                    Below(s, selected.value, i)
  {
    selected := None;
    for index := 0 to |s|
      invariant selected.None? <==> forall i: nat :: i < index && Shown(s, i) ==> drawn[i]
      invariant selected.Some? ==> selected.value < index && Shown(s, selected.value) && !drawn[selected.value]
                                   && forall i: nat :: i < index && Shown(s, i) && !drawn[i] && i != selected.value ==>
                                        Below(s, selected.value, i)
    {
      if !drawn[index] && s[index].live && s[index].visible {
        assert Shown(s, index);
        if selected.None? || KeyBelow(s[index], s[selected.value]) {
          selected := Some(index);
        }
      }
    }
  }

  /** The drawing order of the selection loop; surfaces without pixels are passed over. */
  method SelectionOrder(s: Surfaces, painted: nat -> bool) returns (order: seq<nat>)
    ensures Indices(s, order) && InOrder(s, order)
    ensures forall i: nat :: i in order <==> Shown(s, i) && painted(i)
  {
    order := [];
    var drawn := seq(|s|, _ => false);
    AllDrawn(drawn);
    for n := 0 to |s|
      invariant |drawn| == |s| && Indices(s, order) && InOrder(s, order)
      invariant forall i: nat :: i in order <==> i < |s| && drawn[i] && Shown(s, i) && painted(i)
      invariant forall i: nat, j: nat :: i < |s| && drawn[i] && Shown(s, j) && !drawn[j] ==> Below(s, i, j)
      invariant Undrawn(drawn) == |s| - n
    {
      var selected := SelectLowest(s, drawn);
      if selected.None? { return; }
      var index := selected.value;
      ghost var before := drawn;
      DrawOne(drawn, index);
      drawn := drawn[index := true];
      assert forall i: nat :: i in order ==> Below(s, i, index);
      if painted(index) { order := order + [index]; }
    }
    AllDrawn(drawn);
  }

  function Undrawn(drawn: seq<bool>): nat {
    if drawn == [] then 0 else (if drawn[0] then 0 else 1) + Undrawn(drawn[1..])
  }

  lemma {:induction false} DrawOne(drawn: seq<bool>, i: nat)
    requires i < |drawn| && !drawn[i]
    ensures Undrawn(drawn[i := true]) == Undrawn(drawn) - 1
  {
    if i == 0 {
      assert drawn[i := true][1..] == drawn[1..];
    } else {
      assert drawn[i := true][1..] == drawn[1..][i - 1 := true];
      DrawOne(drawn[1..], i - 1);
    }
  }

  lemma {:induction false} AllDrawn(drawn: seq<bool>)
    ensures Undrawn(drawn) == 0 ==> forall i :: 0 <= i < |drawn| ==> drawn[i]
    ensures (forall i :: 0 <= i < |drawn| ==> !drawn[i]) ==> Undrawn(drawn) == |drawn|
  {
    if drawn != [] {
      AllDrawn(drawn[1..]);
      assert forall i :: 0 < i < |drawn| ==> drawn[i] == drawn[1..][i - 1];
    }
  }

  // The GPU compositor.

  /** The shown surfaces with pixels, in table order. */
  method Collect(s: Surfaces, painted: nat -> bool) returns (t: seq<nat>)
    ensures Indices(s, t) && (forall a, b :: 0 <= a < b < |t| ==> t[a] < t[b])
    ensures forall i: nat :: i in t <==> Shown(s, i) && painted(i)
  {
    t := [];
    for index := 0 to |s|
      invariant (forall k :: 0 <= k < |t| ==> t[k] < index) && (forall a, b :: 0 <= a < b < |t| ==> t[a] < t[b])
      invariant forall i: nat :: i in t <==> i < index && Shown(s, i) && painted(i)
    {
      if s[index].live && s[index].visible && painted(index) { t := t + [index]; }
    }
  }

  /** What a stable sort by layer and z promises: nothing gained or lost, keys ascend, ties keep their order. */
  ghost predicate IsStableSort(s: Surfaces, t: seq<nat>, u: seq<nat>) {
    && Indices(s, t) && Indices(s, u) && multiset(u) == multiset(t)
    && (forall a, b :: 0 <= a < b < |u| ==> !KeyBelow(s[u[b]], s[u[a]]))
    && (forall a, b :: 0 <= a < b < |u| && !KeyBelow(s[u[a]], s[u[b]]) ==>
          exists c, d :: 0 <= c < d < |t| && t[c] == u[a] && t[d] == u[b])
  }

  /** Sorting the collected surfaces gives exactly the order of the selection loop. */
  lemma SortIsSelection(s: Surfaces, t: seq<nat>, u: seq<nat>, order: seq<nat>)
    requires IsStableSort(s, t, u) && (forall a, b :: 0 <= a < b < |t| ==> t[a] < t[b])
    requires Indices(s, order) && InOrder(s, order) && forall i: nat :: i in order <==> i in t
    ensures u == order
  {
    forall a, b | 0 <= a < b < |u| ensures Below(s, u[a], u[b]) {
      if !KeyBelow(s[u[a]], s[u[b]]) {
        var c, d :| 0 <= c < d < |t| && t[c] == u[a] && t[d] == u[b];
      }
    }
    forall i: nat ensures i in u <==> i in order {
      assert i in multiset(u) <==> i in multiset(t);
    }
    OrderIsUnique(s, u, order);
  }

  // The pointer.

  /** The topmost shown surface that accepts the point: the last one in drawing order. */
  method HitTest(s: Surfaces, accepts: nat -> bool) returns (hit: Option<nat>)
    ensures hit.None? <==> forall i: nat :: Shown(s, i) ==> !accepts(i)
    ensures hit.Some? ==> Shown(s, hit.value) && accepts(hit.value)
                          && forall i: nat :: Shown(s, i) && accepts(i) && i != hit.value ==> Below(s, i, hit.value)
  {
    hit := None;
    var layer, z := 0, 0;
    for index := 0 to |s|
      invariant hit.None? <==> forall i: nat :: i < index && Shown(s, i) ==> !accepts(i)
      invariant hit.None? ==> layer == 0 && z == 0
      invariant hit.Some? ==> hit.value < index && layer == s[hit.value].Layer() && z == s[hit.value].z
      invariant hit.Some? ==> Shown(s, hit.value) && accepts(hit.value)
                              && forall i: nat :: i < index && Shown(s, i) && accepts(i) && i != hit.value ==>
                                   Below(s, i, hit.value)
    {
      if s[index].live && s[index].visible && accepts(index)
         && (s[index].Layer() > layer || (s[index].Layer() == layer && s[index].z >= z))
      {
        hit, layer, z := Some(index), s[index].Layer(), s[index].z;
      }
      assert Shown(s, index) <==> s[index].live && s[index].visible;
    }
  }

  /** In any drawing order, nothing drawn after the hit surface accepts the point. */
  lemma HitIsLastDrawn(s: Surfaces, order: seq<nat>, accepts: nat -> bool, hit: nat, k: nat, m: nat)
    requires Indices(s, order) && InOrder(s, order) && k < m < |order| && order[k] == hit
    requires forall i: nat :: Shown(s, i) && accepts(i) && i != hit ==> Below(s, i, hit)
    requires Shown(s, order[m])
    ensures !accepts(order[m])
  {
    assert Below(s, hit, order[m]);
    BelowIsOrder(s, hit, order[m], hit);
  }
}
