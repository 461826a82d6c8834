/** Layer nodes and the collaborators the tree code talks to.

    `LayerNode`, the map-service client and the UI-state store are not part
    of this model. A node is a value: its data record, the id of its parent
    (in place of the parent back-reference) and its ordered children; it is
    a folder exactly when it has a child. Behaviour of `LayerNode` whose code
    is not available (how an id is built, the display name, region
    availability, the default opacity and the service a layer belongs to) is
    a parameter, `LayerNodeOps`, so every result below holds whatever that
    behaviour is, within what each of its functions is given to look at. */
module Layers {
  import opened Values

  type Id = string

  /** A `LayerNode`: built with its data and parent, then given its
      children one `addChild` at a time. */
  datatype Node = Node(data: Fields, parentId: Option<Id>, children: seq<Node>)
  {
    /** `isFolder()`: the node has children. */
    predicate IsFolder() {
      children != []
    }

    /** `isSelected()` reads the merged `isSelected` field. */
    predicate IsSelected() {
      Truthy(Get(data, "isSelected"))
    }

    /** `includeAllLayers()` reads the static `includeAllLayers` flag. */
    predicate IncludeAllLayers() {
      Truthy(Get(data, "includeAllLayers"))
    }
  }

  /** The map-service client: `findServiceLayer(layer)`,
      `findServiceLayerById(id)` and `getLayerDetails(serviceLayer)`, each of
      which may find nothing. */
  datatype Service = Service(
    findServiceLayer: Node -> Option<Fields>,
    findServiceLayerById: Value -> Option<Fields>,
    getLayerDetails: Option<Fields> -> Option<Fields>)

  /** An immutable snapshot of the UI state, queried by node id: the ids
      selected, expanded and showing their info panel, and the opacity
      overrides. */
  datatype State = State(
    selected: set<Id>,
    expanded: set<Id>,
    infoDisplayed: set<Id>,
    opacities: map<Id, Value>)
  {
    predicate IsSelected(id: Id) {
      id in selected
    }

    predicate IsExpanded(id: Id) {
      id in expanded
    }

    predicate InfoIsDisplayed(id: Id) {
      id in infoDisplayed
    }

    /** `getLayerOpacity(id)`: `Undefined` when there is no override. */
    function GetLayerOpacity(id: Id): Value {
      if id in opacities then opacities[id] else Undefined
    }
  }

  /** The data of a static layer's ancestors, the root first: what
      `layer.getService()` and `layer.getOpacity()` may inherit from, as
      server settings are inherited from enclosing server blocks. */
  type Ancestry = seq<Fields>

  /** The parts of `LayerNode` whose code is not available.
      `id(parentId, name, displayName)` is `LayerNode.prototype.id`, a
      deterministic function of the parent's id and the node's own `name` and
      `displayName`. `getService` and `getOpacity` see a static layer's
      ancestry and its own data; `displayName` and `isAvailableInRegion` see
      the node's own data. */
  datatype LayerNodeOps = LayerNodeOps(
    id: (Option<Id>, Value, Value) -> Id,
    displayName: Fields -> string,
    isAvailableInRegion: (Fields, string) -> bool,
    getOpacity: (Ancestry, Fields) -> Value,
    getService: (Ancestry, Fields) -> Service)

  /** `LayerNode.prototype.id` applied to `{parent, node: data}`. */
  function IdOf(ops: LayerNodeOps, parentId: Option<Id>, data: Fields): Id {
    ops.id(parentId, Get(data, "name"), Get(data, "displayName"))
  }

  /** The id of a node. */
  function NodeId(ops: LayerNodeOps, n: Node): Id {
    IdOf(ops, n.parentId, n.data)
  }

  /** The visit order of `walk`: pre-order, depth first, every node once. */
  function Walk(ns: seq<Node>): seq<Node>
    decreases ns
  {
    if ns == [] then [] else WalkNode(ns[0]) + Walk(ns[1..])
  }

  function WalkNode(n: Node): seq<Node>
    decreases n
  {
    [n] + Walk(n.children)
  }

  /** The leaves of a forest, in walk order. */
  function Leaves(ns: seq<Node>): seq<Node>
    decreases ns
  {
    if ns == [] then [] else LeavesOf(ns[0]) + Leaves(ns[1..])
  }

  function LeavesOf(n: Node): seq<Node>
    decreases n
  {
    if n.IsFolder() then Leaves(n.children) else [n]
  }

  /** `layer.findLayer(id)`: the node itself when it has the id, otherwise
      the first hit among its children. */
  function FindInNode(ops: LayerNodeOps, n: Node, id: Id): Option<Node>
    decreases n
  {
    if NodeId(ops, n) == id then Some(n)
    else FindInNodes(ops, n.children, id)
  }

  /** `util.find(nodes, n => n.findLayer(id))`: the first hit, scanning the
      nodes in order. */
  function FindInNodes(ops: LayerNodeOps, ns: seq<Node>, id: Id): Option<Node>
    decreases ns
  {
    if ns == [] then None
    else match FindInNode(ops, ns[0], id)
      case Some(m) => Some(m)
      case None => FindInNodes(ops, ns[1..], id)
  }

  /** Reference search: the first node of a flat sequence with the id. */
  function FirstWithId(ops: LayerNodeOps, w: seq<Node>, id: Id): (r: Option<Node>)
    ensures r.Some? ==> r.value in w && NodeId(ops, r.value) == id
    ensures r.None? <==> forall k :: 0 <= k < |w| ==> NodeId(ops, w[k]) != id
  {
    if w == [] then None
    else if NodeId(ops, w[0]) == id then Some(w[0])
    else FirstWithId(ops, w[1..], id)
  }

  lemma {:induction false} FirstWithIdAppend(ops: LayerNodeOps, a: seq<Node>, b: seq<Node>, id: Id)
    ensures FirstWithId(ops, a + b, id)
         == if FirstWithId(ops, a, id).Some? then FirstWithId(ops, a, id) else FirstWithId(ops, b, id)
  {
    if a != [] {
      assert (a + b)[1..] == a[1..] + b;
      FirstWithIdAppend(ops, a[1..], b, id);
    } else {
      assert a + b == b;
    }
  }

  /** The search delegated through `findLayer` finds the first node of the
      walk that has the id: depth first, a node before its children, and
      nothing when no node has it. */
  lemma {:induction false} FindInNodesIsFirstInWalk(ops: LayerNodeOps, ns: seq<Node>, id: Id)
    ensures FindInNodes(ops, ns, id) == FirstWithId(ops, Walk(ns), id)
    decreases ns
  {
    if ns != [] {
      FindInNodeIsFirstInWalk(ops, ns[0], id);
      FindInNodesIsFirstInWalk(ops, ns[1..], id);
      FirstWithIdAppend(ops, WalkNode(ns[0]), Walk(ns[1..]), id);
    }
  }

  lemma {:induction false} FindInNodeIsFirstInWalk(ops: LayerNodeOps, n: Node, id: Id)
    ensures FindInNode(ops, n, id) == FirstWithId(ops, WalkNode(n), id)
    decreases n
  {
    FindInNodesIsFirstInWalk(ops, n.children, id);
    FirstWithIdAppend(ops, [n], Walk(n.children), id);
  }

  lemma {:induction false} WalkAppend(a: seq<Node>, b: seq<Node>)
    ensures Walk(a + b) == Walk(a) + Walk(b)
    decreases a
  {
    if a != [] {
      assert (a + b)[1..] == a[1..] + b;
      WalkAppend(a[1..], b);
    } else {
      assert a + b == b;
    }
  }

  lemma {:induction false} LeavesAppend(a: seq<Node>, b: seq<Node>)
    ensures Leaves(a + b) == Leaves(a) + Leaves(b)
    decreases a
  {
    if a != [] {
      assert (a + b)[1..] == a[1..] + b;
      LeavesAppend(a[1..], b);
    } else {
      assert a + b == b;
    }
  }

  /** `[x]` when there is a result, `[]` otherwise: what `_.filter` keeps of
      one mapped element. */
  function OptionToSeq(o: Option<Node>): (r: seq<Node>)
    ensures |r| <= 1 && (r == [] <==> o.None?)
  {
    match o
    case Some(n) => [n]
    case None => []
  }

  /** `a` is `b` with some elements left out, the rest in their order. */
  predicate IsSubsequence<T(==)>(a: seq<T>, b: seq<T>)
    decreases |b|
  {
    a == [] || (b != [] && ((a[0] == b[0] && IsSubsequence(a[1..], b[1..])) || IsSubsequence(a, b[1..])))
  }

  lemma {:induction false} SubsequenceRefl<T>(a: seq<T>)
    ensures IsSubsequence(a, a)
    decreases |a|
  {
    if a != [] {
      SubsequenceRefl(a[1..]);
    }
  }

  lemma {:induction false} SubsequencePrepend<T>(a: seq<T>, c: seq<T>, b: seq<T>)
    requires IsSubsequence(a, b)
    ensures IsSubsequence(a, c + b)
    decreases |c|
  {
    if c != [] && a != [] {
      SubsequencePrepend(a, c[1..], b);
      assert (c + b)[1..] == c[1..] + b;
      assert IsSubsequence(a, (c + b)[1..]);
    } else if c == [] {
      assert c + b == b;
    }
  }

  lemma {:induction false} SubsequenceConcat<T>(a1: seq<T>, b1: seq<T>, a2: seq<T>, b2: seq<T>)
    requires IsSubsequence(a1, b1) && IsSubsequence(a2, b2)
    ensures IsSubsequence(a1 + a2, b1 + b2)
    decreases |b1|
  {
    if a1 == [] {
      assert a1 + a2 == a2;
      SubsequencePrepend(a2, b1, b2);
    } else {
      assert (b1 + b2)[1..] == b1[1..] + b2;
      if a1[0] == b1[0] && IsSubsequence(a1[1..], b1[1..]) {
        SubsequenceConcat(a1[1..], b1[1..], a2, b2);
        assert (a1 + a2)[1..] == a1[1..] + a2;
      } else {
        SubsequenceConcat(a1, b1[1..], a2, b2);
      }
    }
  }

  /** The walk visits the roots in their order, each before the nodes below
      it, and the leaves in the order `Leaves` lists them. */
  lemma {:induction false} WalkOrder(ns: seq<Node>)
    ensures IsSubsequence(ns, Walk(ns))
    ensures IsSubsequence(Leaves(ns), Walk(ns))
    decreases ns
  {
    if ns != [] {
      var n := ns[0];
      WalkOrder(ns[1..]);
      WalkNodeOrder(n);
      assert IsSubsequence([n], WalkNode(n)) by {
        assert WalkNode(n)[0] == n;
        assert [n][1..] == [];
      }
      assert ns == [n] + ns[1..];
      SubsequenceConcat([n], WalkNode(n), ns[1..], Walk(ns[1..]));
      SubsequenceConcat(LeavesOf(n), WalkNode(n), Leaves(ns[1..]), Walk(ns[1..]));
    }
  }

  lemma {:induction false} WalkNodeOrder(n: Node)
    ensures IsSubsequence(LeavesOf(n), WalkNode(n))
    decreases n
  {
    if n.IsFolder() {
      WalkOrder(n.children);
      SubsequencePrepend(Leaves(n.children), [n], Walk(n.children));
    } else {
      assert Walk(n.children) == [];
      SubsequenceRefl([n]);
    }
  }
}
