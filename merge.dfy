/** The merge engine of `Tree.js` (`coalesceLayerNode`, `coalesceSubLayer`,
    `createLayerId`) as specification functions, and what they guarantee.

    The sub-layer recursion of the source has no cycle check. Here it is
    bounded by a ghost `depth`: `SubLayerResolves(svc, id, depth)` says that
    every sub-layer id reachable from `id` resolves and that the sub-layers
    nest at most `depth` deep. It is also the precondition the source relies
    on when it reads `serviceLayer.subLayerIds` without a null check. The
    lemmas at the end show that the bound only limits which inputs are
    admitted, never what is computed. */
module Merge {
  import opened Values
  import opened Layers

  /** Fields the UI-state overlay writes onto every merged record. */
  const OverlayKeys: set<string> := {"isSelected", "isExpanded", "infoIsDisplayed", "opacity"}

  /** The overlay `{isSelected, isExpanded, infoIsDisplayed, opacity}` for the
      node with id `id`. */
  function StateOverlay(state: State, id: Id, opacity: Value): Fields {
    map[
      "isSelected" := Bool(state.IsSelected(id)),
      "isExpanded" := Bool(state.IsExpanded(id)),
      "infoIsDisplayed" := Bool(state.InfoIsDisplayed(id)),
      "opacity" := opacity]
  }

  /** `_.assign(d, {includeAllLayers: hasSubLayers})`. */
  function WithIncludeAllLayers(d: Fields, hasSubLayers: bool): Fields {
    Assign(d, map["includeAllLayers" := Bool(hasSubLayers)])
  }

  /** `_.assign({}, serviceLayer || {}, layerDetails || {}, own)`. */
  function MergedFields(serviceLayer: Option<Fields>, details: Option<Fields>, own: Fields): Fields {
    Assign(Assign(Assign(map[], OrEmpty(serviceLayer)), OrEmpty(details)), own)
  }

  /** The merge precedence: a later source wins on a field present in
      several, an absent lookup adds nothing, and no field comes from
      anywhere else. */
  lemma MergePrecedence(serviceLayer: Option<Fields>, details: Option<Fields>, own: Fields)
    ensures var r := MergedFields(serviceLayer, details, own);
      && r.Keys == OrEmpty(serviceLayer).Keys + OrEmpty(details).Keys + own.Keys
      && (forall k :: k in own ==> r[k] == own[k])
      && (forall k :: k in OrEmpty(details) && k !in own ==> r[k] == OrEmpty(details)[k])
      && (forall k :: k in OrEmpty(serviceLayer) && k !in OrEmpty(details) && k !in own ==>
            r[k] == OrEmpty(serviceLayer)[k])
      && (serviceLayer.None? && details.None? ==> r == own)
  {
  }

  /** `createLayerId(parent, layerData)`: the id a node with this data would
      have under the parent with id `parentId`. */
  function CreateLayerId(ops: LayerNodeOps, parentId: Option<Id>, layerData: Fields): Id {
    IdOf(ops, parentId, layerData)
  }

  /** The id depends on the parent's id, `name` and `displayName` only. */
  lemma CreateLayerIdIsStructural(ops: LayerNodeOps, parentId: Option<Id>, d1: Fields, d2: Fields)
    requires Get(d1, "name") == Get(d2, "name") && Get(d1, "displayName") == Get(d2, "displayName")
    ensures CreateLayerId(ops, parentId, d1) == CreateLayerId(ops, parentId, d2)
  {
  }

  /** The service reports sub-layers: `serviceLayer.subLayerIds` is truthy. */
  predicate HasSubLayerIds(serviceLayer: Fields) {
    Truthy(Get(serviceLayer, "subLayerIds"))
  }

  /** The ids `_.each(serviceLayer.subLayerIds, ...)` visits. */
  function SubLayerIds(serviceLayer: Fields): seq<Value> {
    match Get(serviceLayer, "subLayerIds")
    case List(ids) => ids
    case _ => []
  }

  /** The condition of Tree.js:43: the children come from the service. */
  predicate TakesSubLayers(ops: LayerNodeOps, ancestors: Ancestry, layer: Node) {
    var serviceLayer := ops.getService(ancestors, layer.data).findServiceLayer(layer);
    layer.IncludeAllLayers() && serviceLayer.Some? && HasSubLayerIds(serviceLayer.value)
  }

  /** Every sub-layer id reachable from `subLayerId` resolves, nested at most
      `depth` deep. */
  predicate SubLayerResolves(svc: Service, subLayerId: Value, depth: nat)
    decreases depth
  {
    match svc.findServiceLayerById(subLayerId)
    case None => false
    case Some(serviceLayer) =>
      var ids := SubLayerIds(serviceLayer);
      ids == [] || (depth > 0 && forall i :: 0 <= i < |ids| ==> SubLayerResolves(svc, ids[i], depth - 1))
  }

  /** Every sub-layer the merge of `layer` expands resolves within `depth`. */
  predicate Resolvable(ops: LayerNodeOps, ancestors: Ancestry, layer: Node, depth: nat)
    decreases layer
  {
    var svc := ops.getService(ancestors, layer.data);
    if TakesSubLayers(ops, ancestors, layer) then
      var ids := SubLayerIds(svc.findServiceLayer(layer).value);
      forall i :: 0 <= i < |ids| ==> SubLayerResolves(svc, ids[i], depth)
    else
      forall i :: 0 <= i < |layer.children| ==> Resolvable(ops, ancestors + [layer.data], layer.children[i], depth)
  }

  /** The id `coalesceLayerNode` gives `layer` (Tree.js:28-32): computed
      from the merged data, before any state is consulted. */
  function LayerIdFor(ops: LayerNodeOps, parentId: Option<Id>, ancestors: Ancestry, layer: Node): Id {
    var svc := ops.getService(ancestors, layer.data);
    var serviceLayer := svc.findServiceLayer(layer);
    CreateLayerId(ops, parentId, MergedFields(serviceLayer, svc.getLayerDetails(serviceLayer), layer.data))
  }

  /** A layer that carries its own `name` and `displayName` keeps its id
      across rebuilds: the id is the same under any two collaborators with
      the same id scheme, whatever services, metadata and ancestors they
      give it. */
  lemma LayerIdFromStatic(ops1: LayerNodeOps, ops2: LayerNodeOps, parentId: Option<Id>, anc1: Ancestry, anc2: Ancestry, layer: Node)
    requires "name" in layer.data && "displayName" in layer.data
    requires forall p, n, d :: ops1.id(p, n, d) == ops2.id(p, n, d)
    ensures LayerIdFor(ops1, parentId, anc1, layer) == ops1.id(parentId, layer.data["name"], layer.data["displayName"])
    ensures LayerIdFor(ops1, parentId, anc1, layer) == LayerIdFor(ops2, parentId, anc2, layer)
  {
  }

  /** A `displayName` the layer does not carry comes into its id from the
      layer details when they have one, so the id follows service metadata. */
  lemma LayerIdFromDetails(ops: LayerNodeOps, parentId: Option<Id>, ancestors: Ancestry, layer: Node)
    requires "displayName" !in layer.data
    requires var svc := ops.getService(ancestors, layer.data);
      var details := svc.getLayerDetails(svc.findServiceLayer(layer));
      details.Some? && "displayName" in details.value
    ensures var svc := ops.getService(ancestors, layer.data);
      var details := svc.getLayerDetails(svc.findServiceLayer(layer));
      LayerIdFor(ops, parentId, ancestors, layer)
        == ops.id(parentId, Get(MergedFields(svc.findServiceLayer(layer), details, layer.data), "name"), details.value["displayName"])
  {
  }

  /** The record `coalesceLayerNode` builds for `layer` (Tree.js:28-39). */
  function NodeData(ops: LayerNodeOps, state: State, parentId: Option<Id>, ancestors: Ancestry, layer: Node): Fields {
    var svc := ops.getService(ancestors, layer.data);
    var serviceLayer := svc.findServiceLayer(layer);
    var layerData := MergedFields(serviceLayer, svc.getLayerDetails(serviceLayer), layer.data);
    var layerId := CreateLayerId(ops, parentId, layerData);
    var opacity := state.GetLayerOpacity(layerId);
    Assign(layerData, StateOverlay(state, layerId, if opacity.Num? then opacity else ops.getOpacity(ancestors, layer.data)))
  }

  /** The id `coalesceSubLayer` gives the sub-layer `serviceLayer`
      (Tree.js:60-64). */
  function SubLayerIdFor(ops: LayerNodeOps, svc: Service, parentId: Id, serviceLayer: Fields): Id {
    CreateLayerId(ops, Some(parentId), MergedFields(Some(serviceLayer), svc.getLayerDetails(Some(serviceLayer)), map[]))
  }

  /** The record `coalesceSubLayer` builds for `serviceLayer`
      (Tree.js:60-76). Its one `_.assign` of the five overlay fields is
      written as two, of `includeAllLayers` and then of the state's
      answers; the keys are distinct, so the record is the same. */
  function SubLayerData(ops: LayerNodeOps, svc: Service, state: State, parentId: Id, serviceLayer: Fields): Fields {
    var layerData := MergedFields(Some(serviceLayer), svc.getLayerDetails(Some(serviceLayer)), map[]);
    var layerId := CreateLayerId(ops, Some(parentId), layerData);
    Assign(WithIncludeAllLayers(layerData, HasSubLayerIds(serviceLayer)),
      StateOverlay(state, layerId, state.GetLayerOpacity(layerId)))
  }

  /** `coalesceSubLayer(state, parent, subLayerId)` for a parent with id
      `parentId` whose service is `svc`. */
  function SubLayerNode(ops: LayerNodeOps, svc: Service, state: State, parentId: Id, subLayerId: Value, depth: nat): Node
    requires SubLayerResolves(svc, subLayerId, depth)
    decreases depth, 0
  {
    var serviceLayer := svc.findServiceLayerById(subLayerId).value;
    var layerId := SubLayerIdFor(ops, svc, parentId, serviceLayer);
    var ids := SubLayerIds(serviceLayer);
    var children :=
      if HasSubLayerIds(serviceLayer) && ids != [] then SubLayerChildren(ops, svc, state, layerId, ids, depth - 1)
      else [];
    Node(SubLayerData(ops, svc, state, parentId, serviceLayer), Some(parentId), children)
  }

  /** The sub-layers `_.each(serviceLayer.subLayerIds, ...)` adds under the
      node with id `parentId`, one per id, the last one added last (an empty
      list adds none). `SubLayerChildrenElems` lists them. */
  function SubLayerChildren(ops: LayerNodeOps, svc: Service, state: State, parentId: Id, ids: seq<Value>, depth: nat): seq<Node>
    requires forall i :: 0 <= i < |ids| ==> SubLayerResolves(svc, ids[i], depth)
    decreases depth, 1 + |ids|
  {
    if ids == [] then []
    else SubLayerChildren(ops, svc, state, parentId, ids[..|ids| - 1], depth)
         + [SubLayerNode(ops, svc, state, parentId, ids[|ids| - 1], depth)]
  }

  /** One merged sub-layer per id, in id order. */
  lemma {:induction false} SubLayerChildrenElems(ops: LayerNodeOps, svc: Service, state: State, parentId: Id, ids: seq<Value>, depth: nat)
    requires forall i :: 0 <= i < |ids| ==> SubLayerResolves(svc, ids[i], depth)
    ensures |SubLayerChildren(ops, svc, state, parentId, ids, depth)| == |ids|
    ensures forall i :: 0 <= i < |ids| ==>
      SubLayerChildren(ops, svc, state, parentId, ids, depth)[i] == SubLayerNode(ops, svc, state, parentId, ids[i], depth)
    decreases |ids|
  {
    if ids != [] {
      SubLayerChildrenElems(ops, svc, state, parentId, ids[..|ids| - 1], depth);
    }
  }

  /** `coalesceLayerNode(state, parent, layer)` for a parent with id
      `parentId` (`None` for a root). */
  function CoalescedNode(ops: LayerNodeOps, state: State, parentId: Option<Id>, ancestors: Ancestry, layer: Node, depth: nat): Node
    requires Resolvable(ops, ancestors, layer, depth)
    decreases layer
  {
    var svc := ops.getService(ancestors, layer.data);
    var layerId := LayerIdFor(ops, parentId, ancestors, layer);
    var children :=
      if TakesSubLayers(ops, ancestors, layer) then
        SubLayerChildren(ops, svc, state, layerId, SubLayerIds(svc.findServiceLayer(layer).value), depth)
      else
        CoalescedKids(ops, state, Some(layerId), ancestors + [layer.data], layer.children, depth);
    Node(NodeData(ops, state, parentId, ancestors, layer), parentId, children)
  }

  /** The merged nodes of `layers` under the parent with id `parentId`, the
      last one added last. `CoalescedKidsElems` lists them. */
  function CoalescedKids(ops: LayerNodeOps, state: State, parentId: Option<Id>, ancestors: Ancestry, layers: seq<Node>, depth: nat): seq<Node>
    requires forall i :: 0 <= i < |layers| ==> Resolvable(ops, ancestors, layers[i], depth)
    decreases layers
  {
    if layers == [] then []
    else CoalescedKids(ops, state, parentId, ancestors, layers[..|layers| - 1], depth)
         + [CoalescedNode(ops, state, parentId, ancestors, layers[|layers| - 1], depth)]
  }

  /** One merged node per layer, in order. */
  lemma {:induction false} CoalescedKidsElems(ops: LayerNodeOps, state: State, parentId: Option<Id>, ancestors: Ancestry, layers: seq<Node>, depth: nat)
    requires forall i :: 0 <= i < |layers| ==> Resolvable(ops, ancestors, layers[i], depth)
    ensures |CoalescedKids(ops, state, parentId, ancestors, layers, depth)| == |layers|
    ensures forall i :: 0 <= i < |layers| ==>
      CoalescedKids(ops, state, parentId, ancestors, layers, depth)[i] == CoalescedNode(ops, state, parentId, ancestors, layers[i], depth)
    decreases |layers|
  {
    if layers != [] {
      var init := layers[..|layers| - 1];
      CoalescedKidsElems(ops, state, parentId, ancestors, init, depth);
      var r := CoalescedKids(ops, state, parentId, ancestors, layers, depth);
      var front := CoalescedKids(ops, state, parentId, ancestors, init, depth);
      assert r == front + [CoalescedNode(ops, state, parentId, ancestors, layers[|layers| - 1], depth)];
      forall i | 0 <= i < |layers|
        ensures r[i] == CoalescedNode(ops, state, parentId, ancestors, layers[i], depth)
      {
        if i < |init| {
          assert r[i] == front[i] && layers[i] == init[i];
        } else {
          assert i == |front| && r[|front|] == CoalescedNode(ops, state, parentId, ancestors, layers[|layers| - 1], depth);
        }
      }
    }
  }

  /** Writing the state overlay onto a record: the four overlay fields hold
      the given answers; every other field, and so the id, is as it was. */
  lemma StateOverlayApplied(ops: LayerNodeOps, parentId: Option<Id>, d: Fields, state: State, id: Id, opacity: Value)
    ensures
      var m := Assign(d, StateOverlay(state, id, opacity));
      && OverlayKeys <= m.Keys
      && m["isSelected"] == Bool(state.IsSelected(id))
      && m["isExpanded"] == Bool(state.IsExpanded(id))
      && m["infoIsDisplayed"] == Bool(state.InfoIsDisplayed(id))
      && m["opacity"] == opacity
      && (forall k | k !in OverlayKeys :: (k in m <==> k in d) && (k in d ==> m[k] == d[k]))
      && IdOf(ops, parentId, m) == IdOf(ops, parentId, d)
  {
    var m := Assign(d, StateOverlay(state, id, opacity));
    assert Get(m, "name") == Get(d, "name") && Get(m, "displayName") == Get(d, "displayName");
  }

  /** The same for the overlay of a dynamically discovered sub-layer, which
      also writes `includeAllLayers` and takes the opacity as the state
      reports it. */
  lemma SubLayerOverlayApplied(ops: LayerNodeOps, parentId: Option<Id>, d: Fields, state: State, id: Id, hasSubLayers: bool)
    ensures
      var m := Assign(WithIncludeAllLayers(d, hasSubLayers), StateOverlay(state, id, state.GetLayerOpacity(id)));
      && OverlayKeys <= m.Keys
      && (Truthy(Get(m, "includeAllLayers")) <==> hasSubLayers)
      && m["isSelected"] == Bool(state.IsSelected(id))
      && m["isExpanded"] == Bool(state.IsExpanded(id))
      && m["infoIsDisplayed"] == Bool(state.InfoIsDisplayed(id))
      && m["opacity"] == state.GetLayerOpacity(id)
      && (forall k | k !in OverlayKeys && k != "includeAllLayers" :: (k in m <==> k in d) && (k in d ==> m[k] == d[k]))
      && IdOf(ops, parentId, m) == IdOf(ops, parentId, d)
  {
    var d' := WithIncludeAllLayers(d, hasSubLayers);
    StateOverlayApplied(ops, parentId, d', state, id, state.GetLayerOpacity(id));
    assert Get(d', "name") == Get(d, "name") && Get(d', "displayName") == Get(d, "displayName");
  }

  /** A merged node hangs under `parentId`; its id is computed from the
      parent's id and the merged data before the overlay, and the overlay
      holds exactly the state's answers for that id, with the layer's own
      opacity when the state has no numeric override. */
  lemma CoalescedNodeOverlay(ops: LayerNodeOps, state: State, parentId: Option<Id>, ancestors: Ancestry, layer: Node, depth: nat)
    requires Resolvable(ops, ancestors, layer, depth)
    ensures
      var r := CoalescedNode(ops, state, parentId, ancestors, layer, depth);
      var svc := ops.getService(ancestors, layer.data);
      var serviceLayer := svc.findServiceLayer(layer);
      var id := NodeId(ops, r);
      var stateOpacity := state.GetLayerOpacity(id);
      && r.parentId == parentId
      && id == CreateLayerId(ops, parentId, MergedFields(serviceLayer, svc.getLayerDetails(serviceLayer), layer.data))
      && OverlayKeys <= r.data.Keys
      && r.data["isSelected"] == Bool(state.IsSelected(id))
      && r.data["isExpanded"] == Bool(state.IsExpanded(id))
      && r.data["infoIsDisplayed"] == Bool(state.InfoIsDisplayed(id))
      && r.data["opacity"] == (if stateOpacity.Num? then stateOpacity else ops.getOpacity(ancestors, layer.data))
  {
    var r := CoalescedNode(ops, state, parentId, ancestors, layer, depth);
    var svc := ops.getService(ancestors, layer.data);
    var serviceLayer := svc.findServiceLayer(layer);
    var layerData := MergedFields(serviceLayer, svc.getLayerDetails(serviceLayer), layer.data);
    var layerId := CreateLayerId(ops, parentId, layerData);
    var opacity := state.GetLayerOpacity(layerId);
    var shown := if opacity.Num? then opacity else ops.getOpacity(ancestors, layer.data);
    assert r.data == Assign(layerData, StateOverlay(state, layerId, shown)) && r.parentId == parentId;
    StateOverlayApplied(ops, parentId, layerData, state, layerId, shown);
  }

  /** Every field of a merged node other than the overlay comes from the
      static layer when it has it, else from the layer details, else from
      the service layer, and is absent when none of them has it. */
  lemma CoalescedNodeFields(ops: LayerNodeOps, state: State, parentId: Option<Id>, ancestors: Ancestry, layer: Node, depth: nat)
    requires Resolvable(ops, ancestors, layer, depth)
    ensures
      var r := CoalescedNode(ops, state, parentId, ancestors, layer, depth);
      var svc := ops.getService(ancestors, layer.data);
      var serviceLayer := OrEmpty(svc.findServiceLayer(layer));
      var details := OrEmpty(svc.getLayerDetails(svc.findServiceLayer(layer)));
      forall k | k !in OverlayKeys ::
        && (k in r.data <==> k in layer.data || k in details || k in serviceLayer)
        && (k in layer.data ==> r.data[k] == layer.data[k])
        && (k !in layer.data && k in details ==> r.data[k] == details[k])
        && (k !in layer.data && k !in details && k in serviceLayer ==> r.data[k] == serviceLayer[k])
  {
    var r := CoalescedNode(ops, state, parentId, ancestors, layer, depth);
    var svc := ops.getService(ancestors, layer.data);
    var serviceLayer := svc.findServiceLayer(layer);
    var layerData := MergedFields(serviceLayer, svc.getLayerDetails(serviceLayer), layer.data);
    var layerId := CreateLayerId(ops, parentId, layerData);
    var opacity := state.GetLayerOpacity(layerId);
    var shown := if opacity.Num? then opacity else ops.getOpacity(ancestors, layer.data);
    assert r.data == Assign(layerData, StateOverlay(state, layerId, shown));
    StateOverlayApplied(ops, parentId, layerData, state, layerId, shown);
  }

  /** The children of a merged node: one merged sub-layer per reported
      sub-layer id, in id order, when `includeAllLayers` is set and the
      service reports sub-layers (the static children are then ignored);
      otherwise one merged node per static child, in order. Either way the
      children hang under the new node's id. */
  lemma CoalescedNodeChildren(ops: LayerNodeOps, state: State, parentId: Option<Id>, ancestors: Ancestry, layer: Node, depth: nat)
    requires Resolvable(ops, ancestors, layer, depth)
    ensures
      var r := CoalescedNode(ops, state, parentId, ancestors, layer, depth);
      var svc := ops.getService(ancestors, layer.data);
      var id := NodeId(ops, r);
      if TakesSubLayers(ops, ancestors, layer) then
        var ids := SubLayerIds(svc.findServiceLayer(layer).value);
        && |r.children| == |ids|
        && forall i :: 0 <= i < |ids| ==> r.children[i] == SubLayerNode(ops, svc, state, id, ids[i], depth)
      else
        && |r.children| == |layer.children|
        && forall i :: 0 <= i < |layer.children| ==>
             Resolvable(ops, ancestors + [layer.data], layer.children[i], depth)
             && r.children[i] == CoalescedNode(ops, state, Some(id), ancestors + [layer.data], layer.children[i], depth)
  {
    CoalescedNodeOverlay(ops, state, parentId, ancestors, layer, depth);
    var r := CoalescedNode(ops, state, parentId, ancestors, layer, depth);
    var svc := ops.getService(ancestors, layer.data);
    var layerId := LayerIdFor(ops, parentId, ancestors, layer);
    assert NodeId(ops, r) == layerId;
    if TakesSubLayers(ops, ancestors, layer) {
      var ids := SubLayerIds(svc.findServiceLayer(layer).value);
      assert r.children == SubLayerChildren(ops, svc, state, layerId, ids, depth);
      SubLayerChildrenElems(ops, svc, state, layerId, ids, depth);
    } else {
      assert r.children == CoalescedKids(ops, state, Some(layerId), ancestors + [layer.data], layer.children, depth);
      CoalescedKidsElems(ops, state, Some(layerId), ancestors + [layer.data], layer.children, depth);
    }
  }

  /** A dynamically discovered sub-layer hangs under `parentId`; its id is
      computed from the parent's id and the service data; `includeAllLayers`
      holds exactly when its service layer reports sub-layers; the overlay
      holds the state's answers for its id, opacity taken with no
      fallback. */
  lemma SubLayerNodeOverlay(ops: LayerNodeOps, svc: Service, state: State, parentId: Id, subLayerId: Value, depth: nat)
    requires SubLayerResolves(svc, subLayerId, depth)
    ensures
      var r := SubLayerNode(ops, svc, state, parentId, subLayerId, depth);
      var serviceLayer := svc.findServiceLayerById(subLayerId);
      var id := NodeId(ops, r);
      && r.parentId == Some(parentId)
      && id == CreateLayerId(ops, Some(parentId), MergedFields(serviceLayer, svc.getLayerDetails(serviceLayer), map[]))
      && (r.IncludeAllLayers() <==> HasSubLayerIds(serviceLayer.value))
      && OverlayKeys <= r.data.Keys
      && r.data["isSelected"] == Bool(state.IsSelected(id))
      && r.data["isExpanded"] == Bool(state.IsExpanded(id))
      && r.data["infoIsDisplayed"] == Bool(state.InfoIsDisplayed(id))
      && r.data["opacity"] == state.GetLayerOpacity(id)
  {
    var r := SubLayerNode(ops, svc, state, parentId, subLayerId, depth);
    var serviceLayer := svc.findServiceLayerById(subLayerId);
    var layerData := MergedFields(serviceLayer, svc.getLayerDetails(serviceLayer), map[]);
    var layerId := CreateLayerId(ops, Some(parentId), layerData);
    assert r.data == Assign(WithIncludeAllLayers(layerData, HasSubLayerIds(serviceLayer.value)),
      StateOverlay(state, layerId, state.GetLayerOpacity(layerId)));
    SubLayerOverlayApplied(ops, Some(parentId), layerData, state, layerId, HasSubLayerIds(serviceLayer.value));
  }

  /** A dynamically discovered sub-layer has no static fields: apart from
      the overlay and `includeAllLayers`, every field comes from the layer
      details when they have it, else from the service layer. */
  lemma SubLayerNodeFields(ops: LayerNodeOps, svc: Service, state: State, parentId: Id, subLayerId: Value, depth: nat)
    requires SubLayerResolves(svc, subLayerId, depth)
    ensures
      var r := SubLayerNode(ops, svc, state, parentId, subLayerId, depth);
      var serviceLayer := svc.findServiceLayerById(subLayerId).value;
      var details := OrEmpty(svc.getLayerDetails(Some(serviceLayer)));
      forall k | k !in OverlayKeys && k != "includeAllLayers" ::
        && (k in r.data <==> k in details || k in serviceLayer)
        && (k in details ==> r.data[k] == details[k])
        && (k !in details && k in serviceLayer ==> r.data[k] == serviceLayer[k])
  {
    var r := SubLayerNode(ops, svc, state, parentId, subLayerId, depth);
    var serviceLayer := svc.findServiceLayerById(subLayerId);
    var layerData := MergedFields(serviceLayer, svc.getLayerDetails(serviceLayer), map[]);
    var layerId := CreateLayerId(ops, Some(parentId), layerData);
    assert r.data == Assign(WithIncludeAllLayers(layerData, HasSubLayerIds(serviceLayer.value)),
      StateOverlay(state, layerId, state.GetLayerOpacity(layerId)));
    SubLayerOverlayApplied(ops, Some(parentId), layerData, state, layerId, HasSubLayerIds(serviceLayer.value));
  }

  /** A dynamically discovered sub-layer has one child per sub-layer id its
      service layer reports, in order, hanging under its id, and no children
      when it reports none. */
  lemma SubLayerNodeChildren(ops: LayerNodeOps, svc: Service, state: State, parentId: Id, subLayerId: Value, depth: nat)
    requires SubLayerResolves(svc, subLayerId, depth)
    ensures
      var r := SubLayerNode(ops, svc, state, parentId, subLayerId, depth);
      var serviceLayer := svc.findServiceLayerById(subLayerId).value;
      var ids := SubLayerIds(serviceLayer);
      && |r.children| == (if HasSubLayerIds(serviceLayer) then |ids| else 0)
      && forall i :: 0 <= i < |r.children| ==>
           depth > 0 && SubLayerResolves(svc, ids[i], depth - 1)
           && r.children[i] == SubLayerNode(ops, svc, state, NodeId(ops, r), ids[i], depth - 1)
  {
    var r := SubLayerNode(ops, svc, state, parentId, subLayerId, depth);
    var serviceLayer := svc.findServiceLayerById(subLayerId).value;
    var layerId := SubLayerIdFor(ops, svc, parentId, serviceLayer);
    SubLayerNodeOverlay(ops, svc, state, parentId, subLayerId, depth);
    assert svc.findServiceLayerById(subLayerId) == Some(serviceLayer);
    assert NodeId(ops, r) == layerId;
    var ids := SubLayerIds(serviceLayer);
    if HasSubLayerIds(serviceLayer) && ids != [] {
      assert r.children == SubLayerChildren(ops, svc, state, layerId, ids, depth - 1);
      SubLayerChildrenElems(ops, svc, state, layerId, ids, depth - 1);
    }
  }

  /** A node with the overlay fields erased, everywhere in its subtree. */
  function Skeleton(n: Node): Node
    decreases n
  {
    Node(n.data - OverlayKeys, n.parentId,
      seq(|n.children|, i requires 0 <= i < |n.children| => Skeleton(n.children[i])))
  }

  lemma SkeletonOfNode(d1: Fields, d2: Fields, p: Option<Id>, c1: seq<Node>, c2: seq<Node>)
    requires d1 - OverlayKeys == d2 - OverlayKeys
    requires |c1| == |c2| && forall i :: 0 <= i < |c1| ==> Skeleton(c1[i]) == Skeleton(c2[i])
    ensures Skeleton(Node(d1, p, c1)) == Skeleton(Node(d2, p, c2))
  {
    assert Skeleton(Node(d1, p, c1)).children == Skeleton(Node(d2, p, c2)).children;
  }

  /** Erasing the overlay fields from a record with the state overlay
      written onto it gives the same record whatever the state. */
  lemma StateOverlayErased(d: Fields, s1: State, s2: State, id: Id, op1: Value, op2: Value)
    ensures Assign(d, StateOverlay(s1, id, op1)) - OverlayKeys == Assign(d, StateOverlay(s2, id, op2)) - OverlayKeys
  {
    var m1 := Assign(d, StateOverlay(s1, id, op1)) - OverlayKeys;
    var m2 := Assign(d, StateOverlay(s2, id, op2)) - OverlayKeys;
    assert m1.Keys == d.Keys - OverlayKeys;
    assert m2.Keys == d.Keys - OverlayKeys;
    forall k | k in m1 ensures m1[k] == m2[k] {
      assert m1[k] == d[k];
    }
  }

  lemma NodeDataErased(ops: LayerNodeOps, s1: State, s2: State, parentId: Option<Id>, ancestors: Ancestry, layer: Node)
    ensures NodeData(ops, s1, parentId, ancestors, layer) - OverlayKeys == NodeData(ops, s2, parentId, ancestors, layer) - OverlayKeys
  {
    var svc := ops.getService(ancestors, layer.data);
    var serviceLayer := svc.findServiceLayer(layer);
    var layerData := MergedFields(serviceLayer, svc.getLayerDetails(serviceLayer), layer.data);
    var layerId := CreateLayerId(ops, parentId, layerData);
    var o1 := s1.GetLayerOpacity(layerId);
    var o2 := s2.GetLayerOpacity(layerId);
    StateOverlayErased(layerData, s1, s2, layerId,
      if o1.Num? then o1 else ops.getOpacity(ancestors, layer.data), if o2.Num? then o2 else ops.getOpacity(ancestors, layer.data));
  }

  lemma SubLayerDataErased(ops: LayerNodeOps, svc: Service, s1: State, s2: State, parentId: Id, serviceLayer: Fields)
    ensures SubLayerData(ops, svc, s1, parentId, serviceLayer) - OverlayKeys
         == SubLayerData(ops, svc, s2, parentId, serviceLayer) - OverlayKeys
  {
    var layerData := MergedFields(Some(serviceLayer), svc.getLayerDetails(Some(serviceLayer)), map[]);
    var layerId := CreateLayerId(ops, Some(parentId), layerData);
    StateOverlayErased(WithIncludeAllLayers(layerData, HasSubLayerIds(serviceLayer)), s1, s2, layerId,
      s1.GetLayerOpacity(layerId), s2.GetLayerOpacity(layerId));
  }

  /** The UI state reaches a merged tree only through the overlay fields:
      two merges of the same sub-layer under different states agree on
      every id, every parent link, every other field and the whole shape. */
  lemma {:induction false} SubLayerNodeIgnoresState(ops: LayerNodeOps, svc: Service, s1: State, s2: State, parentId: Id, subLayerId: Value, depth: nat)
    requires SubLayerResolves(svc, subLayerId, depth)
    ensures Skeleton(SubLayerNode(ops, svc, s1, parentId, subLayerId, depth))
         == Skeleton(SubLayerNode(ops, svc, s2, parentId, subLayerId, depth))
    decreases depth
  {
    var serviceLayer := svc.findServiceLayerById(subLayerId).value;
    var layerId := SubLayerIdFor(ops, svc, parentId, serviceLayer);
    var ids := SubLayerIds(serviceLayer);
    var c1 := if HasSubLayerIds(serviceLayer) && ids != [] then SubLayerChildren(ops, svc, s1, layerId, ids, depth - 1) else [];
    var c2 := if HasSubLayerIds(serviceLayer) && ids != [] then SubLayerChildren(ops, svc, s2, layerId, ids, depth - 1) else [];
    if HasSubLayerIds(serviceLayer) && ids != [] {
      SubLayerChildrenElems(ops, svc, s1, layerId, ids, depth - 1);
      SubLayerChildrenElems(ops, svc, s2, layerId, ids, depth - 1);
    }
    forall i | 0 <= i < |c1|
      ensures Skeleton(c1[i]) == Skeleton(c2[i])
    {
      SubLayerNodeIgnoresState(ops, svc, s1, s2, layerId, ids[i], depth - 1);
    }
    SubLayerDataErased(ops, svc, s1, s2, parentId, serviceLayer);
    SkeletonOfNode(SubLayerData(ops, svc, s1, parentId, serviceLayer), SubLayerData(ops, svc, s2, parentId, serviceLayer),
      Some(parentId), c1, c2);
  }

  /** The same for a merged layer and everything below it. */
  lemma {:induction false} CoalescedNodeIgnoresState(ops: LayerNodeOps, s1: State, s2: State, parentId: Option<Id>, ancestors: Ancestry, layer: Node, depth: nat)
    requires Resolvable(ops, ancestors, layer, depth)
    ensures Skeleton(CoalescedNode(ops, s1, parentId, ancestors, layer, depth))
         == Skeleton(CoalescedNode(ops, s2, parentId, ancestors, layer, depth))
    decreases layer
  {
    var svc := ops.getService(ancestors, layer.data);
    var layerId := LayerIdFor(ops, parentId, ancestors, layer);
    var c1, c2;
    if TakesSubLayers(ops, ancestors, layer) {
      var ids := SubLayerIds(svc.findServiceLayer(layer).value);
      c1 := SubLayerChildren(ops, svc, s1, layerId, ids, depth);
      c2 := SubLayerChildren(ops, svc, s2, layerId, ids, depth);
      SubLayerChildrenElems(ops, svc, s1, layerId, ids, depth);
      SubLayerChildrenElems(ops, svc, s2, layerId, ids, depth);
      forall i | 0 <= i < |c1|
        ensures Skeleton(c1[i]) == Skeleton(c2[i])
      {
        SubLayerNodeIgnoresState(ops, svc, s1, s2, layerId, ids[i], depth);
      }
    } else {
      var kids := layer.children;
      var inner := ancestors + [layer.data];
      c1 := CoalescedKids(ops, s1, Some(layerId), inner, kids, depth);
      c2 := CoalescedKids(ops, s2, Some(layerId), inner, kids, depth);
      CoalescedKidsElems(ops, s1, Some(layerId), inner, kids, depth);
      CoalescedKidsElems(ops, s2, Some(layerId), inner, kids, depth);
      forall i | 0 <= i < |c1|
        ensures Skeleton(c1[i]) == Skeleton(c2[i])
      {
        CoalescedNodeIgnoresState(ops, s1, s2, Some(layerId), inner, kids[i], depth);
      }
    }
    assert CoalescedNode(ops, s1, parentId, ancestors, layer, depth) == Node(NodeData(ops, s1, parentId, ancestors, layer), parentId, c1);
    assert CoalescedNode(ops, s2, parentId, ancestors, layer, depth) == Node(NodeData(ops, s2, parentId, ancestors, layer), parentId, c2);
    NodeDataErased(ops, s1, s2, parentId, ancestors, layer);
    SkeletonOfNode(NodeData(ops, s1, parentId, ancestors, layer), NodeData(ops, s2, parentId, ancestors, layer), parentId, c1, c2);
  }

  /** A larger depth bound admits every input a smaller one admits. */
  lemma {:induction false} SubLayerResolvesDeeper(svc: Service, subLayerId: Value, d1: nat, d2: nat)
    requires d1 <= d2 && SubLayerResolves(svc, subLayerId, d1)
    ensures SubLayerResolves(svc, subLayerId, d2)
    decreases d1
  {
    var ids := SubLayerIds(svc.findServiceLayerById(subLayerId).value);
    if ids != [] {
      forall i | 0 <= i < |ids|
        ensures SubLayerResolves(svc, ids[i], d2 - 1)
      {
        SubLayerResolvesDeeper(svc, ids[i], d1 - 1, d2 - 1);
      }
    }
  }

  /** The depth bound only decides which inputs are admitted: the merged
      sub-layer is the same under every bound that admits it. */
  lemma {:induction false} SubLayerNodeDepth(ops: LayerNodeOps, svc: Service, state: State, parentId: Id, subLayerId: Value, d1: nat, d2: nat)
    requires d1 <= d2 && SubLayerResolves(svc, subLayerId, d1)
    ensures SubLayerResolves(svc, subLayerId, d2)
    ensures SubLayerNode(ops, svc, state, parentId, subLayerId, d1) == SubLayerNode(ops, svc, state, parentId, subLayerId, d2)
    decreases d1, 0
  {
    SubLayerResolvesDeeper(svc, subLayerId, d1, d2);
    var serviceLayer := svc.findServiceLayerById(subLayerId).value;
    var ids := SubLayerIds(serviceLayer);
    if HasSubLayerIds(serviceLayer) && ids != [] {
      SubLayerChildrenDepth(ops, svc, state, SubLayerIdFor(ops, svc, parentId, serviceLayer), ids, d1 - 1, d2 - 1);
    }
  }

  lemma {:induction false} SubLayerChildrenDepth(ops: LayerNodeOps, svc: Service, state: State, parentId: Id, ids: seq<Value>, d1: nat, d2: nat)
    requires d1 <= d2 && forall i :: 0 <= i < |ids| ==> SubLayerResolves(svc, ids[i], d1)
    ensures forall i :: 0 <= i < |ids| ==> SubLayerResolves(svc, ids[i], d2)
    ensures SubLayerChildren(ops, svc, state, parentId, ids, d1) == SubLayerChildren(ops, svc, state, parentId, ids, d2)
    decreases d1, 1 + |ids|
  {
    forall i | 0 <= i < |ids|
      ensures SubLayerResolves(svc, ids[i], d2)
    {
      SubLayerResolvesDeeper(svc, ids[i], d1, d2);
    }
    if ids != [] {
      SubLayerNodeDepth(ops, svc, state, parentId, ids[|ids| - 1], d1, d2);
      SubLayerChildrenDepth(ops, svc, state, parentId, ids[..|ids| - 1], d1, d2);
    }
  }

  lemma {:induction false} ResolvableDeeper(ops: LayerNodeOps, ancestors: Ancestry, layer: Node, d1: nat, d2: nat)
    requires d1 <= d2 && Resolvable(ops, ancestors, layer, d1)
    ensures Resolvable(ops, ancestors, layer, d2)
    decreases layer
  {
    var svc := ops.getService(ancestors, layer.data);
    if TakesSubLayers(ops, ancestors, layer) {
      var ids := SubLayerIds(svc.findServiceLayer(layer).value);
      forall i | 0 <= i < |ids|
        ensures SubLayerResolves(svc, ids[i], d2)
      {
        SubLayerResolvesDeeper(svc, ids[i], d1, d2);
      }
    } else {
      forall i | 0 <= i < |layer.children|
        ensures Resolvable(ops, ancestors + [layer.data], layer.children[i], d2)
      {
        ResolvableDeeper(ops, ancestors + [layer.data], layer.children[i], d1, d2);
      }
    }
  }

  /** The same for a merged layer and everything below it. */
  lemma {:induction false} CoalescedNodeDepth(ops: LayerNodeOps, state: State, parentId: Option<Id>, ancestors: Ancestry, layer: Node, d1: nat, d2: nat)
    requires d1 <= d2 && Resolvable(ops, ancestors, layer, d1)
    ensures Resolvable(ops, ancestors, layer, d2)
    ensures CoalescedNode(ops, state, parentId, ancestors, layer, d1) == CoalescedNode(ops, state, parentId, ancestors, layer, d2)
    decreases layer
  {
    ResolvableDeeper(ops, ancestors, layer, d1, d2);
    var svc := ops.getService(ancestors, layer.data);
    var layerId := LayerIdFor(ops, parentId, ancestors, layer);
    if TakesSubLayers(ops, ancestors, layer) {
      SubLayerChildrenDepth(ops, svc, state, layerId, SubLayerIds(svc.findServiceLayer(layer).value), d1, d2);
    } else {
      CoalescedKidsDepth(ops, state, Some(layerId), ancestors + [layer.data], layer.children, d1, d2);
    }
  }

  lemma {:induction false} CoalescedKidsDepth(ops: LayerNodeOps, state: State, parentId: Option<Id>, ancestors: Ancestry, layers: seq<Node>, d1: nat, d2: nat)
    requires d1 <= d2 && forall i :: 0 <= i < |layers| ==> Resolvable(ops, ancestors, layers[i], d1)
    ensures forall i :: 0 <= i < |layers| ==> Resolvable(ops, ancestors, layers[i], d2)
    ensures CoalescedKids(ops, state, parentId, ancestors, layers, d1) == CoalescedKids(ops, state, parentId, ancestors, layers, d2)
    decreases layers
  {
    forall i | 0 <= i < |layers|
      ensures Resolvable(ops, ancestors, layers[i], d2)
    {
      ResolvableDeeper(ops, ancestors, layers[i], d1, d2);
    }
    if layers != [] {
      CoalescedNodeDepth(ops, state, parentId, ancestors, layers[|layers| - 1], d1, d2);
      CoalescedKidsDepth(ops, state, parentId, ancestors, layers[..|layers| - 1], d1, d2);
    }
  }
}
