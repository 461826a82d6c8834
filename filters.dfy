/** The two tree filters of `Tree.js`, `filterByRegion` and `filterByName`.

    Both prune the tree with the same recursion and differ only in their
    tests: a node that fails its test is dropped with its whole subtree, a
    folder that passes is rebuilt from the children that survive and is
    dropped when none does, a leaf that passes is kept as it is. */
module Filters {
  import opened Values
  import opened Layers
  import opened Text

  /** `filterLayer(layer)`: `keepFolder` is the test a folder must pass,
      `keepLeaf` the one a leaf must pass. A rebuilt folder has the data and
      parent of the original (`new LayerNode(layer.node, layer.parent)`). */
  function PruneNode(n: Node, keepFolder: Fields -> bool, keepLeaf: Fields -> bool): Option<Node>
    decreases n
  {
    if !n.IsFolder() then
      if keepLeaf(n.data) then Some(n) else None
    else if !keepFolder(n.data) then None
    else
      var kept := PruneNodes(n.children, keepFolder, keepLeaf);
      if kept == [] then None else Some(Node(n.data, n.parentId, kept))
  }

  /** `_.filter(_.map(nodes, filterLayer))`. */
  function PruneNodes(ns: seq<Node>, keepFolder: Fields -> bool, keepLeaf: Fields -> bool): seq<Node>
    decreases ns
  {
    if ns == [] then []
    else OptionToSeq(PruneNode(ns[0], keepFolder, keepLeaf)) + PruneNodes(ns[1..], keepFolder, keepLeaf)
  }

  /** Filtering one node on its own. */
  lemma PruneSingleton(n: Node, keepFolder: Fields -> bool, keepLeaf: Fields -> bool)
    ensures PruneNodes([n], keepFolder, keepLeaf) == OptionToSeq(PruneNode(n, keepFolder, keepLeaf))
  {
    assert [n][1..] == [];
  }

  /** Reference: the leaves that pass their test and lie under folders that
      all pass theirs, in walk order. */
  function Survivors(ns: seq<Node>, keepFolder: Fields -> bool, keepLeaf: Fields -> bool): seq<Node>
    decreases ns
  {
    if ns == [] then []
    else SurvivorsOf(ns[0], keepFolder, keepLeaf) + Survivors(ns[1..], keepFolder, keepLeaf)
  }

  function SurvivorsOf(n: Node, keepFolder: Fields -> bool, keepLeaf: Fields -> bool): seq<Node>
    decreases n
  {
    if !n.IsFolder() then
      if keepLeaf(n.data) then [n] else []
    else if keepFolder(n.data) then Survivors(n.children, keepFolder, keepLeaf)
    else []
  }

  /** A node kept by the filter: a folder has children and passes the folder
      test, a leaf passes the leaf test. A kept folder has children by
      definition, so no empty folder is kept. */
  predicate Fits(m: Node, keepFolder: Fields -> bool, keepLeaf: Fields -> bool) {
    if m.IsFolder() then keepFolder(m.data) else keepLeaf(m.data)
  }

  /** Every node of the forest, at every depth, fits. */
  predicate AllFit(ns: seq<Node>, keepFolder: Fields -> bool, keepLeaf: Fields -> bool)
    decreases ns
  {
    forall i :: 0 <= i < |ns| ==> SubtreeFits(ns[i], keepFolder, keepLeaf)
  }

  predicate SubtreeFits(n: Node, keepFolder: Fields -> bool, keepLeaf: Fields -> bool)
    decreases n
  {
    && Fits(n, keepFolder, keepLeaf)
    && AllFit(n.children, keepFolder, keepLeaf)
  }

  /** A node survives exactly when one of the leaves below it (or the leaf
      itself) survives; the leaves of what is kept are exactly the
      surviving leaves, the same nodes in the same order. */
  lemma {:induction false} PruneNodeSurvivors(n: Node, keepFolder: Fields -> bool, keepLeaf: Fields -> bool)
    ensures PruneNode(n, keepFolder, keepLeaf).Some? <==> SurvivorsOf(n, keepFolder, keepLeaf) != []
    ensures Leaves(OptionToSeq(PruneNode(n, keepFolder, keepLeaf))) == SurvivorsOf(n, keepFolder, keepLeaf)
    decreases n
  {
    if n.IsFolder() && keepFolder(n.data) {
      PruneNodesSurvivors(n.children, keepFolder, keepLeaf);
    }
  }

  lemma {:induction false} PruneNodesSurvivors(ns: seq<Node>, keepFolder: Fields -> bool, keepLeaf: Fields -> bool)
    ensures PruneNodes(ns, keepFolder, keepLeaf) != [] <==> Survivors(ns, keepFolder, keepLeaf) != []
    ensures Leaves(PruneNodes(ns, keepFolder, keepLeaf)) == Survivors(ns, keepFolder, keepLeaf)
    decreases ns
  {
    if ns != [] {
      PruneNodeSurvivors(ns[0], keepFolder, keepLeaf);
      PruneNodesSurvivors(ns[1..], keepFolder, keepLeaf);
      LeavesAppend(OptionToSeq(PruneNode(ns[0], keepFolder, keepLeaf)), PruneNodes(ns[1..], keepFolder, keepLeaf));
    }
  }

  /** A folder survives exactly when it passes its test and one of its
      children survives. */
  lemma FolderSurvives(n: Node, keepFolder: Fields -> bool, keepLeaf: Fields -> bool)
    requires n.IsFolder()
    ensures PruneNode(n, keepFolder, keepLeaf).Some?
        <==> keepFolder(n.data) && exists i :: 0 <= i < |n.children| && PruneNode(n.children[i], keepFolder, keepLeaf).Some?
  {
    PruneNodesNonEmpty(n.children, keepFolder, keepLeaf);
  }

  lemma {:induction false} PruneNodesNonEmpty(ns: seq<Node>, keepFolder: Fields -> bool, keepLeaf: Fields -> bool)
    ensures PruneNodes(ns, keepFolder, keepLeaf) != []
        <==> exists i :: 0 <= i < |ns| && PruneNode(ns[i], keepFolder, keepLeaf).Some?
    decreases ns
  {
    if ns != [] {
      PruneNodesNonEmpty(ns[1..], keepFolder, keepLeaf);
      if PruneNode(ns[0], keepFolder, keepLeaf).None? && PruneNodes(ns[1..], keepFolder, keepLeaf) == [] {
        forall i | 0 <= i < |ns|
          ensures PruneNode(ns[i], keepFolder, keepLeaf).None?
        {
          if i > 0 {
            assert ns[i] == ns[1..][i - 1];
          }
        }
      } else if PruneNode(ns[0], keepFolder, keepLeaf).None? {
        var j :| 0 <= j < |ns[1..]| && PruneNode(ns[1..][j], keepFolder, keepLeaf).Some?;
        assert PruneNode(ns[j + 1], keepFolder, keepLeaf).Some?;
      }
    }
  }

  /** Everything the filter keeps, at every depth, fits: no node that fails
      its test and no empty folder remains. */
  lemma {:induction false} PruneNodeFits(n: Node, keepFolder: Fields -> bool, keepLeaf: Fields -> bool)
    ensures AllFit(OptionToSeq(PruneNode(n, keepFolder, keepLeaf)), keepFolder, keepLeaf)
    decreases n
  {
    if n.IsFolder() {
      PruneNodesFit(n.children, keepFolder, keepLeaf);
    }
  }

  lemma {:induction false} PruneNodesFit(ns: seq<Node>, keepFolder: Fields -> bool, keepLeaf: Fields -> bool)
    ensures AllFit(PruneNodes(ns, keepFolder, keepLeaf), keepFolder, keepLeaf)
    decreases ns
  {
    if ns != [] {
      PruneNodeFits(ns[0], keepFolder, keepLeaf);
      PruneNodesFit(ns[1..], keepFolder, keepLeaf);
      AllFitAppend(OptionToSeq(PruneNode(ns[0], keepFolder, keepLeaf)), PruneNodes(ns[1..], keepFolder, keepLeaf), keepFolder, keepLeaf);
    }
  }

  lemma AllFitAppend(a: seq<Node>, b: seq<Node>, keepFolder: Fields -> bool, keepLeaf: Fields -> bool)
    requires AllFit(a, keepFolder, keepLeaf) && AllFit(b, keepFolder, keepLeaf)
    ensures AllFit(a + b, keepFolder, keepLeaf)
  {
    forall i | 0 <= i < |a + b|
      ensures SubtreeFits((a + b)[i], keepFolder, keepLeaf)
    {
      if i >= |a| {
        assert (a + b)[i] == b[i - |a|];
      }
    }
  }

  /** A forest that fits has only fitting nodes in its walk. */
  lemma {:induction false} AllFitWalk(ns: seq<Node>, keepFolder: Fields -> bool, keepLeaf: Fields -> bool)
    requires AllFit(ns, keepFolder, keepLeaf)
    ensures forall m :: m in Walk(ns) ==> Fits(m, keepFolder, keepLeaf)
    decreases ns
  {
    if ns != [] {
      assert AllFit(ns[1..], keepFolder, keepLeaf) by {
        forall i | 0 <= i < |ns[1..]|
          ensures SubtreeFits(ns[1..][i], keepFolder, keepLeaf)
        {
          assert ns[1..][i] == ns[i + 1];
        }
      }
      AllFitWalk(ns[1..], keepFolder, keepLeaf);
      AllFitWalk(ns[0].children, keepFolder, keepLeaf);
    }
  }

  /** What identifies a node apart from its children: its data, its
      parent's id and whether it is a folder. */
  function Headers(w: seq<Node>): (r: seq<(Fields, Option<Id>, bool)>)
    ensures |r| == |w| && forall i :: 0 <= i < |w| ==> r[i] == (w[i].data, w[i].parentId, w[i].IsFolder())
  {
    seq(|w|, i requires 0 <= i < |w| => (w[i].data, w[i].parentId, w[i].IsFolder()))
  }

  lemma HeadersAppend(a: seq<Node>, b: seq<Node>)
    ensures Headers(a + b) == Headers(a) + Headers(b)
  {
  }

  /** The filter keeps order: walking what it keeps visits, in the same
      order, nodes with the data and parents of nodes of the original walk,
      and a folder stays a folder (it keeps at least one child). */
  lemma {:induction false} PruneNodeOrder(n: Node, keepFolder: Fields -> bool, keepLeaf: Fields -> bool)
    ensures IsSubsequence(Headers(Walk(OptionToSeq(PruneNode(n, keepFolder, keepLeaf)))), Headers(WalkNode(n)))
    decreases n
  {
    var r := OptionToSeq(PruneNode(n, keepFolder, keepLeaf));
    if r == [] {
    } else if !n.IsFolder() {
      assert Walk(r) == WalkNode(n) + Walk([]);
      SubsequenceRefl(Headers(WalkNode(n)));
    } else {
      var kept := PruneNodes(n.children, keepFolder, keepLeaf);
      var m := Node(n.data, n.parentId, kept);
      assert r == [m];
      PruneNodesOrder(n.children, keepFolder, keepLeaf);
      assert Walk(r) == [m] + Walk(kept) by {
        assert Walk(r) == WalkNode(m) + Walk([]);
      }
      assert WalkNode(n) == [n] + Walk(n.children);
      HeadersAppend([m], Walk(kept));
      HeadersAppend([n], Walk(n.children));
      assert Headers([m]) == Headers([n]);
      SubsequenceRefl(Headers([n]));
      SubsequenceConcat(Headers([m]), Headers([n]), Headers(Walk(kept)), Headers(Walk(n.children)));
    }
  }

  lemma {:induction false} PruneNodesOrder(ns: seq<Node>, keepFolder: Fields -> bool, keepLeaf: Fields -> bool)
    ensures IsSubsequence(Headers(Walk(PruneNodes(ns, keepFolder, keepLeaf))), Headers(Walk(ns)))
    decreases ns
  {
    if ns != [] {
      var head := OptionToSeq(PruneNode(ns[0], keepFolder, keepLeaf));
      var tail := PruneNodes(ns[1..], keepFolder, keepLeaf);
      PruneNodeOrder(ns[0], keepFolder, keepLeaf);
      PruneNodesOrder(ns[1..], keepFolder, keepLeaf);
      WalkAppend(head, tail);
      HeadersAppend(Walk(head), Walk(tail));
      HeadersAppend(WalkNode(ns[0]), Walk(ns[1..]));
      SubsequenceConcat(Headers(Walk(head)), Headers(WalkNode(ns[0])), Headers(Walk(tail)), Headers(Walk(ns[1..])));
    } else {
      assert Headers(Walk(ns)) == [];
    }
  }

  /** The leaves of a flat sequence that pass `keep`, in order. */
  function LeavesWhere(w: seq<Node>, keep: Fields -> bool): (r: seq<Node>)
    ensures forall m :: m in r <==> m in w && keep(m.data)
  {
    if w == [] then [] else (if keep(w[0].data) then [w[0]] else []) + LeavesWhere(w[1..], keep)
  }

  lemma {:induction false} LeavesWhereAppend(a: seq<Node>, b: seq<Node>, keep: Fields -> bool)
    ensures LeavesWhere(a + b, keep) == LeavesWhere(a, keep) + LeavesWhere(b, keep)
    decreases a
  {
    if a != [] {
      assert (a + b)[1..] == a[1..] + b;
      LeavesWhereAppend(a[1..], b, keep);
    } else {
      assert a + b == b;
    }
  }

  /** The test every folder passes. */
  function Always(): Fields -> bool {
    d => true
  }

  /** Under a filter that keeps every folder, the surviving leaves are the
      leaves that pass the leaf test. */
  lemma {:induction false} SurvivorsUnderAlways(ns: seq<Node>, keepLeaf: Fields -> bool)
    ensures Survivors(ns, Always(), keepLeaf) == LeavesWhere(Leaves(ns), keepLeaf)
    decreases ns
  {
    if ns != [] {
      SurvivorsOfUnderAlways(ns[0], keepLeaf);
      SurvivorsUnderAlways(ns[1..], keepLeaf);
      LeavesWhereAppend(LeavesOf(ns[0]), Leaves(ns[1..]), keepLeaf);
    }
  }

  lemma {:induction false} SurvivorsOfUnderAlways(n: Node, keepLeaf: Fields -> bool)
    ensures SurvivorsOf(n, Always(), keepLeaf) == LeavesWhere(LeavesOf(n), keepLeaf)
    decreases n
  {
    if n.IsFolder() {
      SurvivorsUnderAlways(n.children, keepLeaf);
    }
  }

  // filterByRegion

  /** `layer.isAvailableInRegion(currentRegion)` as a test on a node's data. */
  function AvailableIn(ops: LayerNodeOps, region: string): Fields -> bool {
    d => ops.isAvailableInRegion(d, region)
  }

  /** The roots `filterByRegion(currentRegion)` returns. */
  function RegionFiltered(ops: LayerNodeOps, ns: seq<Node>, region: string): seq<Node> {
    PruneNodes(ns, AvailableIn(ops, region), AvailableIn(ops, region))
  }

  /** What the region filter guarantees: no node of the result is
      unavailable; its leaves are the original leaf nodes that are available
      and lie under available folders only, in their order; and the nodes it
      keeps appear in the order of the original walk, each folder still a
      folder, so no folder is left without children. */
  lemma RegionFilterFacts(ops: LayerNodeOps, ns: seq<Node>, region: string)
    ensures var r := RegionFiltered(ops, ns, region);
      && (forall m :: m in Walk(r) ==> ops.isAvailableInRegion(m.data, region))
      && Leaves(r) == Survivors(ns, AvailableIn(ops, region), AvailableIn(ops, region))
      && IsSubsequence(Headers(Walk(r)), Headers(Walk(ns)))
  {
    var avail := AvailableIn(ops, region);
    PruneNodesFit(ns, avail, avail);
    AllFitWalk(PruneNodes(ns, avail, avail), avail, avail);
    PruneNodesSurvivors(ns, avail, avail);
    PruneNodesOrder(ns, avail, avail);
  }

  /** An unavailable root is dropped with its whole subtree, and an
      available leaf is kept as the same node. */
  lemma RegionFilterRoot(ops: LayerNodeOps, n: Node, region: string)
    ensures !ops.isAvailableInRegion(n.data, region) ==> RegionFiltered(ops, [n], region) == []
    ensures ops.isAvailableInRegion(n.data, region) && !n.IsFolder() ==> RegionFiltered(ops, [n], region) == [n]
  {
    PruneSingleton(n, AvailableIn(ops, region), AvailableIn(ops, region));
  }

  /** A folder is kept exactly when it is available and one of its children
      is kept. */
  lemma RegionFolderSurvives(ops: LayerNodeOps, n: Node, region: string)
    requires n.IsFolder()
    ensures RegionFiltered(ops, [n], region) != []
        <==> ops.isAvailableInRegion(n.data, region) && exists i :: 0 <= i < |n.children| && RegionFiltered(ops, [n.children[i]], region) != []
  {
    var kids := n.children;
    var avail := AvailableIn(ops, region);
    FolderSurvives(n, avail, avail);
    PruneSingleton(n, avail, avail);
    forall i | 0 <= i < |kids|
      ensures RegionFiltered(ops, [kids[i]], region) != [] <==> PruneNode(kids[i], avail, avail).Some?
    {
      PruneSingleton(kids[i], avail, avail);
    }
  }

  // filterByName

  /** `layer.getDisplayName().toLowerCase().indexOf(filterText) !== -1` for
      the already lowered text `lowered`. */
  predicate NameMatches(ops: LayerNodeOps, lowered: string, d: Fields) {
    IndexOf(ToLower(ops.displayName(d)), lowered) != -1
  }

  function MatchesName(ops: LayerNodeOps, lowered: string): Fields -> bool {
    d => NameMatches(ops, lowered, d)
  }

  /** The roots `filterByName(filterText)` returns for a non-empty text (for
      the empty text it returns the tree itself). */
  function NameFiltered(ops: LayerNodeOps, ns: seq<Node>, filterText: string): seq<Node> {
    PruneNodes(ns, Always(), MatchesName(ops, ToLower(filterText)))
  }

  /** A leaf matches exactly when the lowered text occurs in its lowered
      display name. */
  lemma NameMatchesSpec(ops: LayerNodeOps, filterText: string, d: Fields)
    ensures NameMatches(ops, ToLower(filterText), d) <==> IsSubstring(ToLower(filterText), ToLower(ops.displayName(d)))
  {
    IndexOfSpec(ToLower(ops.displayName(d)), ToLower(filterText));
  }

  /** What the name filter guarantees: the leaves of the result are exactly
      the original leaf nodes whose name matches, in their order; every leaf
      of the result matches; and the nodes it keeps appear in the order of
      the original walk, each folder still a folder, so no folder is left
      without children. */
  lemma NameFilterFacts(ops: LayerNodeOps, ns: seq<Node>, filterText: string)
    ensures var r := NameFiltered(ops, ns, filterText);
      && Leaves(r) == LeavesWhere(Leaves(ns), MatchesName(ops, ToLower(filterText)))
      && (forall m :: m in Walk(r) && !m.IsFolder() ==> NameMatches(ops, ToLower(filterText), m.data))
      && IsSubsequence(Headers(Walk(r)), Headers(Walk(ns)))
  {
    var matches := MatchesName(ops, ToLower(filterText));
    PruneNodesFit(ns, Always(), matches);
    AllFitWalk(PruneNodes(ns, Always(), matches), Always(), matches);
    PruneNodesSurvivors(ns, Always(), matches);
    SurvivorsUnderAlways(ns, matches);
    PruneNodesOrder(ns, Always(), matches);
  }

  /** A folder is kept exactly when one of its children is kept. */
  lemma NameFolderSurvives(ops: LayerNodeOps, n: Node, filterText: string)
    requires n.IsFolder()
    ensures NameFiltered(ops, [n], filterText) != []
        <==> exists i :: 0 <= i < |n.children| && NameFiltered(ops, [n.children[i]], filterText) != []
  {
    var kids := n.children;
    var matches := MatchesName(ops, ToLower(filterText));
    FolderSurvives(n, Always(), matches);
    PruneSingleton(n, Always(), matches);
    forall i | 0 <= i < |kids|
      ensures NameFiltered(ops, [kids[i]], filterText) != [] <==> PruneNode(kids[i], Always(), matches).Some?
    {
      PruneSingleton(kids[i], Always(), matches);
    }
  }

  /** The text is compared without regard to case. */
  lemma NameFilterIgnoresCase(ops: LayerNodeOps, ns: seq<Node>, t1: string, t2: string)
    requires ToLower(t1) == ToLower(t2)
    ensures NameFiltered(ops, ns, t1) == NameFiltered(ops, ns, t2)
  {
  }

  /** `"ROAD"` and `"road"` select the same layers. */
  lemma RoadExample(ops: LayerNodeOps, ns: seq<Node>)
    ensures NameFiltered(ops, ns, "ROAD") == NameFiltered(ops, ns, "road")
  {
    assert ToLower("ROAD") == "road";
    assert ToLower("road") == "road";
  }
}
