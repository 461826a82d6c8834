# Layer tree of the regional-planning map viewer

The viewer shows a catalog of map layers as a tree. `Tree.js` builds that
tree from three sources:

- the authored layer specification tree;
- the metadata the map services report;
- the per-session UI state: selection, expansion, info panel and opacity.

It offers these operations on it:

- `update` rebuilds the tree against a new state.
- `filterByRegion` and `filterByName` prune it.
- `getSelectedLeafNodes`, `findLayer(s)`, `walk` and `getChildren` read it.

This project is a Dafny model of that file. Its modules:

- `Values`: JavaScript values in a layer's data record, truthiness, property reads and `_.assign`.
- `Layers`: layer nodes and the walk order. It also holds the collaborators whose code is not part of this model. `LayerNode` behaviour is the `LayerNodeOps` parameter. The map-service client is `Service` and the UI-state store is `State`.
- `Merge`: the merge engine (`coalesceLayerNode`, `coalesceSubLayer`, `createLayerId`) as specification functions, with what they guarantee:
  - field precedence;
  - an id computed before the state overlay and independent of it;
  - the overlay holding the state's answers;
  - the choice of children;
  - the shape of discovered sub-layers.
- `Filters`: the two filters, as one pruning recursion with two tests, against a reference definition of which leaves survive.
- `Text`: `toLowerCase` and `indexOf`.
- `Lookup`: selected leaves and id lookup, against reference definitions.
- `LayerTree`: the `Tree` class. Its methods build each merged node and grow its child list in a loop, as the source does. Each method is proved equal to the specification function it implements.

The source's sub-layer recursion has no cycle check. The model bounds it with a ghost `depth`. It takes "every sub-layer id reachable from the layer resolves" as its precondition. The source reads `serviceLayer.subLayerIds` without a null check and relies on this. The `*Depth` lemmas prove that the bound only limits which inputs are admitted and never changes the result.

`getLayerDetails` is called even when no service layer was found: `coalesceLayerNode` calls it unconditionally (Tree.js:30).

Where each operation of `Tree.js` is defined:

| source | definition |
|---|---|
| `coalesceLayerNode` (Tree.js:27-56) | `Merge.CoalescedNode`, its records `Merge.NodeData` and `Merge.MergedFields`, its child loop `Merge.CoalescedKids`; built step by step by `LayerTree.Tree.CoalesceLayerNode` |
| `coalesceSubLayer` (Tree.js:59-87) | `Merge.SubLayerNode`, its record `Merge.SubLayerData`, its child loop `Merge.SubLayerChildren`; built step by step by `LayerTree.Tree.CoalesceSubLayer` |
| `createLayerId` (Tree.js:89-96) | `Merge.CreateLayerId` |
| `update` (Tree.js:19-24) | `LayerTree.Tree.Update` |
| `filterByRegion`, `filterByName` (Tree.js:99-142) | `Filters.PruneNode` and `Filters.PruneNodes`, with the tests of `Filters.RegionFiltered` and `Filters.NameFiltered` |
| `getSelectedLeafNodes` (Tree.js:148-157) | `Lookup.SelectedIn` over `Layers.Walk` |
| `findLayer`, `findLayers` (Tree.js:159-167) | `Layers.FindInNodes`, `Lookup.FoundLayers` |
| `walk`, `getChildren` (Tree.js:144-171) | `Layers.Walk`, `LayerTree.Tree.GetChildren` |

## Model

| member | source | states |
|---|---|---|
| Merge.MergePrecedence | Tree.js:31 | The merged record has exactly the keys of the three sources. Static fields win over detail fields, which win over service-layer fields. An absent service layer and absent details contribute nothing |
| Merge.CreateLayerIdIsStructural | Tree.js:89-96 | The id depends only on the parent's id, `name` and `displayName` |
| Merge.LayerIdFromStatic | Tree.js:27-31 | A layer that carries its own `name` and `displayName` gets the same id under any two collaborators with the same id scheme, whatever services, metadata and ancestors they supply: the id is a function of the parent id and those two static fields |
| Merge.LayerIdFromDetails | Tree.js:29-31 | A `displayName` the layer does not carry is taken into its id from the layer details when they have one |
| Merge.StateOverlayApplied | Tree.js:34-39 | After the overlay, the four state fields hold the given answers. Every other field, and so the id, is unchanged |
| Merge.SubLayerOverlayApplied | Tree.js:65-76 | The same for the sub-layer overlay. Its `includeAllLayers` is truthy exactly when the service layer reports sub-layers |
| Merge.CoalescedNodeOverlay | Tree.js:28-40 | A merged node hangs under its parent. Its id is computed from the parent id and the merged data before the overlay. Selection, expansion and info are the state's answers for that id. Opacity is the state's value when it is a number, else the layer's own opacity |
| Merge.CoalescedNodeFields | Tree.js:28-34 | Every non-overlay field of a merged node is the static field when present, else the detail field, else the service-layer field. It is absent when no source has it |
| Merge.CoalescedNodeChildren | Tree.js:42-53 | With `includeAllLayers` and reported sub-layers, the children are one merged sub-layer per id, in id order, and the static children are ignored. Otherwise they are one merged node per static child, in order. Either way they hang under the new node's id |
| Merge.CoalescedKidsElems | Tree.js:49-52 | The loop over the static children yields one merged node per child, in order |
| Merge.SubLayerChildrenElems | Tree.js:80-83 | The loop over `subLayerIds` yields one merged sub-layer per id, in order |
| Merge.SubLayerNodeOverlay | Tree.js:60-77 | A discovered sub-layer hangs under its parent, with its id computed from the service data. `includeAllLayers` holds iff its service layer reports sub-layers. The overlay holds the state's answers, with opacity taken from the state without fallback |
| Merge.SubLayerNodeFields | Tree.js:60-65 | A discovered sub-layer has no static fields. Apart from the overlay and `includeAllLayers`, each field comes from the details, else from the service layer |
| Merge.SubLayerNodeChildren | Tree.js:79-84 | A discovered sub-layer has one child per reported sub-layer id, in order, under its own id. It has none when it reports no sub-layers |
| Merge.CoalescedNodeIgnoresState | Tree.js:27-56 | Two merges of a layer under different UI states agree everywhere except the four overlay fields: ids, parent links, other fields and shape |
| Merge.SubLayerNodeIgnoresState | Tree.js:59-87 | The same for a discovered sub-layer and everything below it |
| Merge.SubLayerResolvesDeeper | Tree.js:79-84 | A larger nesting bound admits every sub-layer id a smaller one admits |
| Merge.SubLayerNodeDepth | Tree.js:59-87 | A merged sub-layer is the same under every nesting bound that admits it |
| Merge.SubLayerChildrenDepth | Tree.js:79-84 | The same for a list of sub-layer ids |
| Merge.ResolvableDeeper | Tree.js:43-53 | A larger nesting bound admits every layer a smaller one admits |
| Merge.CoalescedNodeDepth | Tree.js:27-56 | A merged layer is the same under every nesting bound that admits it |
| Merge.CoalescedKidsDepth | Tree.js:49-52 | The same for a list of static children |
| Layers.FirstWithId | Tree.js:159-163 | Reference search: a result has the id and comes from the walk. There is no result exactly when no node of the walk has the id |
| Layers.FindInNodesIsFirstInWalk | Tree.js:159-163 | The search delegated root by root through `findLayer` finds the first node of the pre-order walk with the id |
| Layers.FindInNodeIsFirstInWalk | Tree.js:160-162 | The same for one root and its subtree |
| Layers.WalkOrder | Tree.js:169-171 | The walk visits the roots in their order and the leaves in their order |
| Layers.WalkNodeOrder | Tree.js:169-171 | The walk of a node visits its leaves in their order |
| Filters.PruneNodeSurvivors | Tree.js:100-115 | A node survives filtering iff some leaf under it passes, below folders that all pass. The survivor's leaves are exactly those original leaf nodes, in order |
| Filters.PruneNodesSurvivors | Tree.js:116 | The result is non-empty iff some leaf survives, and its leaves are exactly the surviving original leaves, in order |
| Filters.FolderSurvives | Tree.js:106-111 | A folder is kept iff it passes its test and at least one child is kept |
| Filters.PruneNodesNonEmpty | Tree.js:109-111 | A list in which some node is kept filters to a non-empty list |
| Filters.PruneNodeFits | Tree.js:100-115 | Every node of a filtered subtree passes its test: a folder the folder test, a leaf the leaf test |
| Filters.PruneNodesFit | Tree.js:116 | The same for a filtered list of roots |
| Filters.AllFitWalk | Tree.js:116 | When every subtree fits, every node the walk visits fits |
| Filters.PruneNodeOrder | Tree.js:106-111 | The nodes a filtered subtree keeps occur in the original walk order, with their data, parent and folder status |
| Filters.PruneNodesOrder | Tree.js:116 | The same for a filtered list of roots: siblings keep their relative order |
| Filters.SurvivorsUnderAlways | Tree.js:127-139 | When folders pass unconditionally, the surviving leaves are the leaves that match, in order |
| Filters.RegionFilterFacts | Tree.js:99-117 | No node of the result is unavailable in the region. The leaves are the available original leaf nodes under available folders, in order. The kept nodes keep the original walk order, and each kept folder is still a folder, so no folder is left empty |
| Filters.RegionFilterRoot | Tree.js:100-115 | An unavailable node is dropped with its subtree. An available leaf is kept as the same node |
| Filters.RegionFolderSurvives | Tree.js:106-111 | A folder is kept iff it is available and one of its children is kept |
| Filters.NameMatchesSpec | Tree.js:130 | A leaf matches iff the lowered text is a substring of its lowered display name |
| Filters.NameFilterFacts | Tree.js:120-142 | The leaves of the result are exactly the matching original leaf nodes, in order. Every kept leaf matches. The original walk order is kept, and each kept folder is still a folder, so no folder is left empty |
| Filters.NameFolderSurvives | Tree.js:132-138 | A folder is kept iff at least one of its children is kept |
| Filters.NameFilterIgnoresCase | Tree.js:125 | Two texts that lower to the same string filter alike |
| Filters.RoadExample | Tree.js:125-130 | `"ROAD"` and `"road"` select the same layers |
| Text.IndexOfSpec | Tree.js:130 | `indexOf` is -1 iff the needle is not a substring. Otherwise it is the first place where the needle occurs |
| Lookup.SelectedIn | Tree.js:150-156 | The selected leaves of a visit order, as the callback pushes them: each is a visited non-folder that is selected, and each such node is there |
| Lookup.SelectedInWalk | Tree.js:149-157 | Collecting along the walk gives the selected leaves of the forest in pre-order, tree by tree |
| Lookup.SelectedLeavesAreLeaves | Tree.js:148-157 | The selected leaves are the selected ones among the leaves, in leaf order |
| Lookup.FoundLayers | Tree.js:165-167 | There are at most as many hits as ids, and each hit is a node of the walk whose id was asked for |
| Lookup.FoundLayersAppend | Tree.js:166 | Looking up a concatenation of id lists concatenates the hits, so the input order is kept |
| Lookup.FoundLayersOne | Tree.js:159-167 | One id yields its first hit in the walk, or nothing |
| Lookup.FoundLayersCons | Tree.js:166 | The hits for a non-empty id list are the first id's hit, if any, followed by the hits for the rest |
| Lookup.FoundLayersComplete | Tree.js:165-167 | The result is as long as the id list iff every id has a node, so only misses are dropped |
| LayerTree.Tree.constructor | Tree.js:14-16 | The tree holds the given roots |
| LayerTree.Tree.Update | Tree.js:19-24 | A new tree with exactly one merged root per root, in the same order. The receiver is unchanged |
| LayerTree.Tree.CoalesceLayerNode | Tree.js:27-56 | The node built step by step is the merged node of the layer under the given parent |
| LayerTree.Tree.CoalesceChildren | Tree.js:48-53 | The child loop yields the merged static children, in order |
| LayerTree.Tree.CoalesceSubLayers | Tree.js:43-47 | The `subLayerIds` loop yields the merged sub-layers, one per id, in order |
| LayerTree.Tree.CoalesceSubLayer | Tree.js:59-87 | The sub-layer node built step by step is the merged sub-layer under the given parent |
| LayerTree.Tree.FilterByRegion | Tree.js:99-117 | A new tree whose roots are the region-filtered roots |
| LayerTree.Tree.FilterByName | Tree.js:120-142 | The tree itself for the empty text. Otherwise, a new tree whose roots are the name-filtered roots |
| LayerTree.Tree.GetChildren | Tree.js:144-146 | The roots the tree was built with |
| LayerTree.Tree.GetSelectedLeafNodes | Tree.js:149-157 | The selected leaves in walk order. A node is in the result iff the walk visits it and it is a selected non-folder |
| LayerTree.Tree.FindLayer | Tree.js:159-163 | The first node of the pre-order walk with the id, or nothing |
| LayerTree.Tree.FindLayers | Tree.js:165-167 | The hit for each id, misses dropped, in id order. There are at most as many hits as ids, and each is a node of the walk with a requested id |
| LayerTree.Tree.Walk | Tree.js:169-171 | The visit order of `walk`. It lists the roots in order and the leaves in order |

## Left out

- `LayerNode` is not part of this model. Its id scheme, display name, region availability, default opacity and service lookup are parameters (`LayerNodeOps`). Every result holds for any such behaviour within what each function is given to look at:
  - `getService` and `getOpacity` see the static layer's own data and the data of its ancestors, so a service or opacity inherited from enclosing server blocks can be expressed.
  - `getDisplayName` and `isAvailableInRegion` see the node's own data only. A display name or region list inherited from a parent is not modelled.
  - `findServiceLayer` sees the static layer node with its subtree, but not its ancestors.
- `isSelected()` and `includeAllLayers()` are taken to read the merged `isSelected` and static `includeAllLayers` fields with JavaScript truthiness.
- `isFolder()` is taken to mean "has children". A node is one constructor with a child list, so a node with no child is a leaf for the merge, both filters, the walk and selection alike.
- `LayerNode.walk` and `findLayer` are taken to be pre-order, a node before its children.
- `util.find` is not part of this model. It is taken to return the first truthy callback result, which is the node found, scanning the roots in order.
- The model builds nodes as values, so aliasing between a node and its parent is not modelled. In place of the parent back-reference, a node records its parent's id, which is all the id scheme uses. A merged node is built from its finished child list, which the source grows with `addChild`.
- Ids are stable across rebuilds only for layers that carry their own `name` and `displayName` (Merge.LayerIdFromStatic). Otherwise the source puts a `name` or `displayName` supplied by the layer details or the service layer into the id (Merge.LayerIdFromDetails), so the id changes when that metadata changes. A discovered sub-layer has no static data, so its id always comes from service metadata (Tree.js:60-63).
- Merge.SubLayerNode: the service of a discovered sub-layer is taken to be the service of the layer under which it was discovered, because `parent.getService()` depends on `LayerNode` code that is not part of this model.
- Merge.SubLayerIds: `subLayerIds` is followed only when it is a list. A truthy value of another kind is taken to list no sub-layers; the source would iterate over it.
- Merge.SubLayerResolves: the sub-layer recursion is admitted only for inputs whose sub-layer ids all resolve and nest to a finite depth. For other inputs the source either throws on the unchecked `serviceLayer.subLayerIds` read or fails to terminate.
- Text.LowerChar: `toLowerCase` is modelled for the ASCII letters A to Z only.
- The display name, region codes and opacity are opaque values. There is no arithmetic on opacity, and NaN is not modelled.
- Rendering, fetching, asynchronous loading and the Dojo class machinery are outside this file and not modelled. The UI-state store is an immutable snapshot passed in.
- `schema.js` is a declarative JSON Schema with no logic, and it is not modelled.
