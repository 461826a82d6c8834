/** `Tree`: an ordered list of root layer nodes, and the operations on it.

    The operations never change a tree: `update` and the filters return a new
    one. The merge builds each node and grows its child list one child at a
    time; here a node is a value, so the list grows in a local variable and
    the node is made from it at the end. */
module LayerTree {
  import opened Values
  import opened Layers
  import opened Merge
  import opened Filters
  import opened Text
  import opened Lookup

  class Tree {
    const layers: seq<Node>

    constructor(layers: seq<Node>)
      ensures this.layers == layers
    {
      this.layers := layers;
    }

    /** `update(state)`: a new tree with one merged root per root, in order.
        `depth` bounds the nesting of the sub-layers the merge discovers. */
    method Update(ops: LayerNodeOps, state: State, ghost depth: nat) returns (t: Tree)
      requires forall i :: 0 <= i < |layers| ==> Resolvable(ops, [], layers[i], depth)
      ensures fresh(t) && t.layers == CoalescedKids(ops, state, None, [], layers, depth)
      ensures |t.layers| == |layers|
      ensures forall i :: 0 <= i < |layers| ==> t.layers[i] == CoalescedNode(ops, state, None, [], layers[i], depth)
    {
      var roots: seq<Node> := [];
      var i := 0;
      while i < |layers|
        invariant 0 <= i <= |layers|
        invariant roots == CoalescedKids(ops, state, None, [], layers[..i], depth)
      {
        var root := CoalesceLayerNode(ops, state, None, [], layers[i], depth);
        assert layers[..i + 1][..i] == layers[..i];
        roots := roots + [root];
        i := i + 1;
      }
      assert layers[..i] == layers;
      CoalescedKidsElems(ops, state, None, [], layers, depth);
      t := new Tree(roots);
    }

    /** `coalesceLayerNode(state, parent, layer)` under the parent with id
        `parentId` (`None` for a root), for a static layer whose ancestors
        have the data `ancestors`. */
    method CoalesceLayerNode(ops: LayerNodeOps, state: State, parentId: Option<Id>, ancestors: Ancestry, layer: Node, ghost depth: nat)
      returns (result: Node)
      requires Resolvable(ops, ancestors, layer, depth)
      ensures result == CoalescedNode(ops, state, parentId, ancestors, layer, depth)
      decreases layer, 1
    {
      var service := ops.getService(ancestors, layer.data);
      var serviceLayer := service.findServiceLayer(layer);
      var layerDetails := service.getLayerDetails(serviceLayer);
      var layerData := MergedFields(serviceLayer, layerDetails, layer.data);
      var layerId := CreateLayerId(ops, parentId, layerData);
      var opacity := state.GetLayerOpacity(layerId);
      var node := Assign(layerData, StateOverlay(state, layerId, if opacity.Num? then opacity else ops.getOpacity(ancestors, layer.data)));
      var children: seq<Node> := [];
      if layer.IncludeAllLayers() && serviceLayer.Some? && HasSubLayerIds(serviceLayer.value) {
        children := CoalesceSubLayers(ops, service, state, layerId, SubLayerIds(serviceLayer.value), depth);
      } else {
        children := CoalesceChildren(ops, state, layerId, ancestors, layer, depth);
      }
      result := Node(node, parentId, children);
    }

    /** The loop of `coalesceLayerNode` over the static children of `layer`,
        whose merged node has id `parentId`. */
    method CoalesceChildren(ops: LayerNodeOps, state: State, parentId: Id, ancestors: Ancestry, layer: Node, ghost depth: nat)
      returns (children: seq<Node>)
      requires !TakesSubLayers(ops, ancestors, layer) && Resolvable(ops, ancestors, layer, depth)
      ensures children == CoalescedKids(ops, state, Some(parentId), ancestors + [layer.data], layer.children, depth)
      decreases layer, 0
    {
      var kids := layer.children;
      var inner := ancestors + [layer.data];
      children := [];
      var i := 0;
      while i < |kids|
        invariant 0 <= i <= |kids|
        invariant children == CoalescedKids(ops, state, Some(parentId), inner, kids[..i], depth)
      {
        var child := CoalesceLayerNode(ops, state, Some(parentId), inner, kids[i], depth);
        assert kids[..i + 1][..i] == kids[..i];
        children := children + [child];
        i := i + 1;
      }
      assert kids[..i] == kids;
    }

    /** `_.each(serviceLayer.subLayerIds, ...)`: one merged sub-layer per id,
        in order, under the node with id `parentId`. */
    method CoalesceSubLayers(ops: LayerNodeOps, service: Service, state: State, parentId: Id, ids: seq<Value>, ghost depth: nat)
      returns (children: seq<Node>)
      requires forall k :: 0 <= k < |ids| ==> SubLayerResolves(service, ids[k], depth)
      ensures children == SubLayerChildren(ops, service, state, parentId, ids, depth)
      decreases depth, 1
    {
      children := [];
      var i := 0;
      while i < |ids|
        invariant 0 <= i <= |ids|
        invariant children == SubLayerChildren(ops, service, state, parentId, ids[..i], depth)
      {
        var child := CoalesceSubLayer(ops, service, state, parentId, ids[i], depth);
        assert ids[..i + 1][..i] == ids[..i];
        children := children + [child];
        i := i + 1;
      }
      assert ids[..i] == ids;
    }

    /** `coalesceSubLayer(state, parent, subLayerId)` under the parent with
        id `parentId`, whose service is `service`. */
    method CoalesceSubLayer(ops: LayerNodeOps, service: Service, state: State, parentId: Id, subLayerId: Value, ghost depth: nat)
      returns (result: Node)
      requires SubLayerResolves(service, subLayerId, depth)
      ensures result == SubLayerNode(ops, service, state, parentId, subLayerId, depth)
      decreases depth, 0
    {
      var serviceLayer := service.findServiceLayerById(subLayerId).value;
      var layerDetails := service.getLayerDetails(Some(serviceLayer));
      var layerData := MergedFields(Some(serviceLayer), layerDetails, map[]);
      var layerId := CreateLayerId(ops, Some(parentId), layerData);
      var node := Assign(WithIncludeAllLayers(layerData, HasSubLayerIds(serviceLayer)),
        StateOverlay(state, layerId, state.GetLayerOpacity(layerId)));
      var children: seq<Node> := [];
      var ids := SubLayerIds(serviceLayer);
      // An empty id list adds no child.
      if HasSubLayerIds(serviceLayer) && ids != [] {
        children := CoalesceSubLayers(ops, service, state, layerId, ids, depth - 1);
      }
      result := Node(node, Some(parentId), children);
    }

    /** `filterByRegion(currentRegion)`. */
    method FilterByRegion(ops: LayerNodeOps, currentRegion: string) returns (t: Tree)
      ensures fresh(t) && t.layers == RegionFiltered(ops, layers, currentRegion)
    {
      t := new Tree(PruneNodes(layers, AvailableIn(ops, currentRegion), AvailableIn(ops, currentRegion)));
    }

    /** `filterByName(filterText)`: the tree itself for the empty text. */
    method FilterByName(ops: LayerNodeOps, filterText: string) returns (t: Tree)
      ensures |filterText| == 0 ==> t == this
      ensures |filterText| != 0 ==> fresh(t) && t.layers == NameFiltered(ops, layers, filterText)
    {
      if |filterText| == 0 {
        return this;
      }
      var lowered := ToLower(filterText);
      t := new Tree(PruneNodes(layers, Always(), MatchesName(ops, lowered)));
    }

    /** `getChildren()`: the roots. */
    function GetChildren(): (r: seq<Node>)
      ensures r == layers
    {
      layers
    }

    /** `getSelectedLeafNodes()`: the selected leaves, in walk order. */
    method GetSelectedLeafNodes() returns (result: seq<Node>)
      ensures result == SelectedLeaves(layers)
      ensures forall m :: m in result <==> m in Layers.Walk(layers) && !m.IsFolder() && m.IsSelected()
    {
      var visited := Layers.Walk(layers);
      result := [];
      var i := 0;
      while i < |visited|
        invariant 0 <= i <= |visited|
        invariant result == SelectedIn(visited[..i])
      {
        var layer := visited[i];
        if !layer.IsFolder() && layer.IsSelected() {
          result := result + [layer];
        }
        assert visited[..i + 1][..i] == visited[..i];
        i := i + 1;
      }
      assert visited[..i] == visited;
      SelectedInWalk(layers);
    }

    /** `findLayer(layerId)`: the first node of the walk with the id. */
    function FindLayer(ops: LayerNodeOps, layerId: Id): (r: Option<Node>)
      ensures r == FirstWithId(ops, Layers.Walk(layers), layerId)
    {
      FindInNodesIsFirstInWalk(ops, layers, layerId);
      FindInNodes(ops, layers, layerId)
    }

    /** `findLayers(layerIds)`: the hit for each id, in id order, misses
        dropped. */
    function FindLayers(ops: LayerNodeOps, layerIds: seq<Id>): (r: seq<Node>)
      ensures |r| <= |layerIds|
      ensures forall k :: 0 <= k < |r| ==> r[k] in Layers.Walk(layers) && NodeId(ops, r[k]) in layerIds
      ensures layerIds != [] ==> r == OptionToSeq(FindLayer(ops, layerIds[0])) + FindLayers(ops, layerIds[1..])
    {
      FoundLayersCons(ops, layers, layerIds);
      FoundLayers(ops, layers, layerIds)
    }

    /** `walk(callback)`: the nodes the callback is applied to, in order. */
    function Walk(): (r: seq<Node>)
      ensures IsSubsequence(layers, r) && IsSubsequence(Leaves(layers), r)
    {
      WalkOrder(layers);
      Layers.Walk(layers)
    }
  }
}
