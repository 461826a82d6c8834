/** Selection and lookup over a forest: `getSelectedLeafNodes`, `findLayer`
    and `findLayers`. */
module Lookup {
  import opened Layers

  /** The test `getSelectedLeafNodes` applies to each visited node. */
  predicate IsSelectedLeaf(n: Node) {
    !n.IsFolder() && n.IsSelected()
  }

  /** The nodes of a visit order that pass the test, in visit order, as the
      callback pushes them. */
  function SelectedIn(w: seq<Node>): (r: seq<Node>)
    ensures |r| <= |w|
    ensures forall m :: m in r <==> m in w && IsSelectedLeaf(m)
  {
    if w == [] then []
    else SelectedIn(w[..|w| - 1]) + (if IsSelectedLeaf(w[|w| - 1]) then [w[|w| - 1]] else [])
  }

  lemma {:induction false} SelectedInAppend(a: seq<Node>, b: seq<Node>)
    ensures SelectedIn(a + b) == SelectedIn(a) + SelectedIn(b)
    decreases |b|
  {
    if b == [] {
      assert a + b == a;
    } else {
      assert (a + b)[..|a + b| - 1] == a + b[..|b| - 1];
      SelectedInAppend(a, b[..|b| - 1]);
    }
  }

  /** Reference: the selected leaves of a forest, tree by tree. */
  function SelectedLeaves(ns: seq<Node>): seq<Node>
    decreases ns
  {
    if ns == [] then [] else SelectedLeavesOf(ns[0]) + SelectedLeaves(ns[1..])
  }

  function SelectedLeavesOf(n: Node): seq<Node>
    decreases n
  {
    if n.IsFolder() then SelectedLeaves(n.children)
    else if n.IsSelected() then [n] else []
  }

  /** Collecting selected leaves along the walk gives the selected leaves of
      the forest, tree by tree, in pre-order. */
  lemma {:induction false} SelectedInWalk(ns: seq<Node>)
    ensures SelectedIn(Walk(ns)) == SelectedLeaves(ns)
    decreases ns
  {
    if ns != [] {
      SelectedInWalkNode(ns[0]);
      SelectedInWalk(ns[1..]);
      SelectedInAppend(WalkNode(ns[0]), Walk(ns[1..]));
    }
  }

  lemma {:induction false} SelectedInWalkNode(n: Node)
    ensures SelectedIn(WalkNode(n)) == SelectedLeavesOf(n)
    decreases n
  {
    SelectedInWalk(n.children);
    SelectedInAppend([n], Walk(n.children));
    assert [n][..0] == [];
  }

  /** The selected leaves are the selected ones among the leaves, in the
      order the leaves come. */
  lemma {:induction false} SelectedLeavesAreLeaves(ns: seq<Node>)
    ensures SelectedLeaves(ns) == SelectedIn(Leaves(ns))
    decreases ns
  {
    if ns != [] {
      SelectedLeavesOfAreLeaves(ns[0]);
      SelectedLeavesAreLeaves(ns[1..]);
      SelectedInAppend(LeavesOf(ns[0]), Leaves(ns[1..]));
    }
  }

  lemma {:induction false} SelectedLeavesOfAreLeaves(n: Node)
    ensures SelectedLeavesOf(n) == SelectedIn(LeavesOf(n))
    decreases n
  {
    if n.IsFolder() {
      SelectedLeavesAreLeaves(n.children);
    } else {
      assert [n][..0] == [];
    }
  }

  /** `_.filter(_.map(layerIds, this.findLayer, this))`: the hit for each id,
      in id order, misses dropped. */
  function FoundLayers(ops: LayerNodeOps, ns: seq<Node>, ids: seq<Id>): (r: seq<Node>)
    ensures |r| <= |ids|
    ensures forall k :: 0 <= k < |r| ==> r[k] in Walk(ns) && NodeId(ops, r[k]) in ids
  {
    if ids == [] then []
    else
      FindInNodesIsFirstInWalk(ops, ns, ids[0]);
      OptionToSeq(FindInNodes(ops, ns, ids[0])) + FoundLayers(ops, ns, ids[1..])
  }

  /** Looking up a concatenation of id lists concatenates the hits. */
  lemma {:induction false} FoundLayersAppend(ops: LayerNodeOps, ns: seq<Node>, a: seq<Id>, b: seq<Id>)
    ensures FoundLayers(ops, ns, a + b) == FoundLayers(ops, ns, a) + FoundLayers(ops, ns, b)
    decreases a
  {
    if a != [] {
      assert (a + b)[1..] == a[1..] + b;
      FoundLayersAppend(ops, ns, a[1..], b);
    } else {
      assert a + b == b;
    }
  }

  /** One id: its hit when there is one, nothing otherwise. */
  lemma FoundLayersOne(ops: LayerNodeOps, ns: seq<Node>, id: Id)
    ensures FoundLayers(ops, ns, [id]) == OptionToSeq(FirstWithId(ops, Walk(ns), id))
  {
    FindInNodesIsFirstInWalk(ops, ns, id);
    assert [id][1..] == [];
  }

  /** The hits for a non-empty id list: the first id's hit, if any, then
      the hits for the rest. */
  lemma FoundLayersCons(ops: LayerNodeOps, ns: seq<Node>, ids: seq<Id>)
    ensures ids != [] ==>
      FoundLayers(ops, ns, ids) == OptionToSeq(FirstWithId(ops, Walk(ns), ids[0])) + FoundLayers(ops, ns, ids[1..])
  {
    if ids != [] {
      FoundLayersOne(ops, ns, ids[0]);
      FoundLayersAppend(ops, ns, [ids[0]], ids[1..]);
      assert ids == [ids[0]] + ids[1..];
    }
  }

  /** No hit is dropped unless its id has no node: every id is found exactly
      when the result is as long as the id list. */
  lemma {:induction false} FoundLayersComplete(ops: LayerNodeOps, ns: seq<Node>, ids: seq<Id>)
    ensures |FoundLayers(ops, ns, ids)| == |ids|
        <==> forall k :: 0 <= k < |ids| ==> FirstWithId(ops, Walk(ns), ids[k]).Some?
    decreases ids
  {
    if ids != [] {
      FindInNodesIsFirstInWalk(ops, ns, ids[0]);
      FoundLayersComplete(ops, ns, ids[1..]);
      if |FoundLayers(ops, ns, ids)| == |ids| {
        forall k | 0 <= k < |ids|
          ensures FirstWithId(ops, Walk(ns), ids[k]).Some?
        {
          if k > 0 {
            assert ids[k] == ids[1..][k - 1];
          }
        }
      } else if FindInNodes(ops, ns, ids[0]).Some? {
        var k :| 0 <= k < |ids[1..]| && FirstWithId(ops, Walk(ns), ids[1..][k]).None?;
        assert FirstWithId(ops, Walk(ns), ids[k + 1]).None?;
      }
    }
  }
}
