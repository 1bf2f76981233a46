/**
  The column/node structure behind the flow canvas (src/app/flows/flowcanvas/page.tsx)
  and the pure computations over it: lookups, the path walk, the display filter and
  the whole-column transformations that the page's handlers apply.
*/
module FlowTree {
  import opened Wrappers
  import opened Sequences

  /** One prompt of the flow tree. `parentId` is `None` for `undefined` and `null`. */
  datatype NodeData = NodeData(id: string, labelText: string, parentId: Option<string>, priority: Option<string>)

  /** One stage of the tree. */
  datatype Column = Column(id: string, title: string, nodes: seq<NodeData>, isActive: bool)

  /** The ids of the five fixed columns, left to right; the first holds the root prompts. */
  const RootColumnId: string := "col-1"
  const SecondColumnId: string := "col-2"
  const ThirdColumnId: string := "col-3"
  const FourthColumnId: string := "col-4"
  const FifthColumnId: string := "col-5"

  const ColumnIds: seq<string> := [RootColumnId, SecondColumnId, ThirdColumnId, FourthColumnId, FifthColumnId]

  /** The five placeholder columns the canvas is mounted with. */
  const InitialColumns: seq<Column> := [
    Column(RootColumnId, "Initialize Flow", [], true),
    Column(SecondColumnId, "", [], false),
    Column(ThirdColumnId, "", [], false),
    Column(FourthColumnId, "", [], false),
    Column(FifthColumnId, "", [], false)
  ]

  /** The index of the first column with id `id`, or -1 when there is none. */
  function IndexOf(cols: seq<Column>, id: string): (k: int)
    ensures -1 <= k < |cols|
    ensures 0 <= k ==> cols[k].id == id && forall j :: 0 <= j < k ==> cols[j].id != id
    ensures k == -1 <==> forall j :: 0 <= j < |cols| ==> cols[j].id != id
  {
    if cols == [] then -1
    else if cols[0].id == id then 0
    else
      var k := IndexOf(cols[1..], id);
      if k == -1 then -1 else k + 1
  }

  /** All nodes of all columns, column by column. */
  function Flatten(cols: seq<Column>): (ns: seq<NodeData>)
  {
    if cols == [] then [] else cols[0].nodes + Flatten(cols[1..])
  }

  /** The index of the first node with id `id`, or -1 when there is none. */
  function FirstWithId(ns: seq<NodeData>, id: string): (k: int)
    ensures -1 <= k < |ns|
    ensures 0 <= k ==> ns[k].id == id && forall j :: 0 <= j < k ==> ns[j].id != id
    ensures k == -1 <==> forall j :: 0 <= j < |ns| ==> ns[j].id != id
  {
    if ns == [] then -1
    else if ns[0].id == id then 0
    else
      var k := FirstWithId(ns[1..], id);
      if k == -1 then -1 else k + 1
  }

  /** The first node with id `id`, if any. */
  function FindNode(ns: seq<NodeData>, id: string): (r: Option<NodeData>)
    ensures r.Some? ==> r.value in ns && r.value.id == id
    ensures r.None? <==> forall n :: n in ns ==> n.id != id
  {
    if ns == [] then None
    else if ns[0].id == id then Some(ns[0])
    else FindNode(ns[1..], id)
  }

  /** The nodes of the first column with id `columnId`, or [] when there is none. */
  function ColumnNodes(cols: seq<Column>, columnId: string): (ns: seq<NodeData>)
  {
    var k := IndexOf(cols, columnId);
    if k == -1 then [] else cols[k].nodes
  }

  /** The title given to the column after a clicked node: its priority, a colon, its label (empty parts for a missing node). */
  function ColumnTitle(parent: Option<NodeData>): (t: string)
    ensures parent.None? ==> t == ": "
    ensures parent.Some? ==>
      var p, l := OrEmpty(parent.value.priority), parent.value.labelText;
      && |t| == |p| + 2 + |l|
      && t[..|p|] == p && t[|p|..|p| + 2] == ": " && t[|p| + 2..] == l
  {
    match parent
    case None => ": "
    case Some(n) => OrEmpty(n.priority) + ": " + n.labelText
  }

  /** The id of the column at index `i`, or none past the end (or for an empty id). */
  function ColumnIdAt(cols: seq<Column>, i: int): (r: Option<string>)
    ensures r.Some? <==> 0 <= i < |cols| && cols[i].id != ""
    ensures r.Some? ==> r.value == cols[i].id
  {
    if 0 <= i < |cols| && cols[i].id != "" then Some(cols[i].id) else None
  }

  /** The activation map of a click in the column at index `k` (-1 when it was not found). */
  function ActivateAround(cols: seq<Column>, k: int, title: string): seq<Column>
  {
    seq(|cols|, i requires 0 <= i < |cols| =>
      if i == k + 1 then cols[i].(isActive := true, title := title)
      else if i == k - 1 then cols[i].(isActive := true)
      else if i > k + 1 then cols[i].(isActive := false)
      else cols[i])
  }

  /** The columns after a click on node `nodeId` in column `columnId`. */
  function ClickedColumns(cols: seq<Column>, columnId: string, nodeId: string): (r: seq<Column>)
    ensures |r| == |cols|
    ensures forall i :: 0 <= i < |cols| ==> r[i].id == cols[i].id && r[i].nodes == cols[i].nodes
  {
    ActivateAround(cols, IndexOf(cols, columnId), ColumnTitle(FindNode(Flatten(cols), nodeId)))
  }

  /** Appends `node` to every column whose id is `columnId`. */
  function AppendToColumn(cols: seq<Column>, columnId: string, node: NodeData): (r: seq<Column>)
    ensures |r| == |cols|
    ensures forall i {:trigger r[i]} :: 0 <= i < |cols| ==>
      && r[i].id == cols[i].id && r[i].title == cols[i].title && r[i].isActive == cols[i].isActive
      && r[i].nodes == if cols[i].id == columnId then cols[i].nodes + [node] else cols[i].nodes
  {
    seq(|cols|, i requires 0 <= i < |cols| =>
      if cols[i].id == columnId then cols[i].(nodes := cols[i].nodes + [node]) else cols[i])
  }

  /** Replaces label and priority of the nodes whose id is `targetId`. */
  function EditNodes(ns: seq<NodeData>, targetId: string, labelText: string, priority: Option<string>): (r: seq<NodeData>)
    ensures |r| == |ns|
    ensures forall i {:trigger r[i]} :: 0 <= i < |ns| ==>
      && r[i].id == ns[i].id && r[i].parentId == ns[i].parentId
      && (ns[i].id == targetId ==> r[i].labelText == labelText && r[i].priority == priority)
      && (ns[i].id != targetId ==> r[i] == ns[i])
  {
    seq(|ns|, i requires 0 <= i < |ns| =>
      if ns[i].id == targetId then ns[i].(labelText := labelText, priority := priority) else ns[i])
  }

  /** Applies `EditNodes` to every column whose id is `columnId`. */
  function EditInColumn(cols: seq<Column>, columnId: string, targetId: string, labelText: string,
                        priority: Option<string>): (r: seq<Column>)
    ensures |r| == |cols|
    ensures forall i {:trigger r[i]} :: 0 <= i < |cols| ==>
      && r[i].id == cols[i].id && r[i].title == cols[i].title && r[i].isActive == cols[i].isActive
      && r[i].nodes == if cols[i].id == columnId then EditNodes(cols[i].nodes, targetId, labelText, priority)
                       else cols[i].nodes
  {
    seq(|cols|, i requires 0 <= i < |cols| =>
      if cols[i].id == columnId then cols[i].(nodes := EditNodes(cols[i].nodes, targetId, labelText, priority))
      else cols[i])
  }

  /** The nodes whose id is not `x`, in order. */
  function RemoveId(ns: seq<NodeData>, x: string): (r: seq<NodeData>)
    ensures forall n :: n in r <==> n in ns && n.id != x
  {
    if ns == [] then []
    else (if ns[0].id != x then [ns[0]] else []) + RemoveId(ns[1..], x)
  }

  /** Applies `RemoveId` to every column whose id is `columnId`. */
  function RemoveFromColumn(cols: seq<Column>, columnId: string, x: string): (r: seq<Column>)
    ensures |r| == |cols|
    ensures forall i {:trigger r[i]} :: 0 <= i < |cols| ==>
      && r[i].id == cols[i].id && r[i].title == cols[i].title && r[i].isActive == cols[i].isActive
      && r[i].nodes == if cols[i].id == columnId then RemoveId(cols[i].nodes, x) else cols[i].nodes
  {
    seq(|cols|, i requires 0 <= i < |cols| =>
      if cols[i].id == columnId then cols[i].(nodes := RemoveId(cols[i].nodes, x)) else cols[i])
  }

  /** The sweep after a delete: every empty column past the first becomes inactive. */
  function DeactivateEmpty(cols: seq<Column>): (r: seq<Column>)
    ensures |r| == |cols|
    ensures forall i {:trigger r[i]} :: 0 <= i < |cols| ==>
      && r[i].id == cols[i].id && r[i].title == cols[i].title && r[i].nodes == cols[i].nodes
      && r[i].isActive == (cols[i].isActive && !(i > 0 && cols[i].nodes == []))
  {
    seq(|cols|, i requires 0 <= i < |cols| =>
      if |cols[i].nodes| == 0 && i > 0 then cols[i].(isActive := false) else cols[i])
  }

  /** The ids of the nodes whose parent is `p`, in order. */
  function ChildIds(ns: seq<NodeData>, p: string): (r: seq<string>)
    ensures |r| <= |ns|
    ensures forall x :: x in r <==> exists n :: n in ns && n.parentId == Some(p) && n.id == x
  {
    if ns == [] then []
    else (if ns[0].parentId == Some(p) then [ns[0].id] else []) + ChildIds(ns[1..], p)
  }

  /** One step of the path walk: the parent of the first node with id `id`, when truthy. */
  function NextId(cols: seq<Column>, id: string): (r: Option<string>)
    ensures r.Some? ==> r.value != ""
  {
    match FindNode(Flatten(cols), id)
    case None => None
    case Some(n) => if Truthy(n.parentId) then n.parentId else None
  }

  /** The walk from `id` along `NextId` stops within `fuel` visited ids. */
  ghost predicate StopsWithin(cols: seq<Column>, id: string, fuel: nat)
    decreases fuel
  {
    fuel > 0 && (NextId(cols, id).None? || StopsWithin(cols, NextId(cols, id).value, fuel - 1))
  }

  /** The ids the walk visits from `id` until it stops. */
  ghost function Ancestors(cols: seq<Column>, id: string, fuel: nat): (w: seq<string>)
    requires StopsWithin(cols, id, fuel)
    decreases fuel
  {
    match NextId(cols, id)
    case None => [id]
    case Some(p) => [id] + Ancestors(cols, p, fuel - 1)
  }

  /** The path walk from the selection terminates (it does when parent links are acyclic). */
  ghost predicate Terminates(cols: seq<Column>, selected: Option<string>)
  {
    !Truthy(selected) || exists fuel: nat :: StopsWithin(cols, selected.value, fuel)
  }

  /** The highlighted path: the ancestor walk from the selection, then the selection's direct children. */
  ghost function FlowPath(cols: seq<Column>, selected: Option<string>): seq<string>
    requires Terminates(cols, selected)
  {
    if !Truthy(selected) then []
    else
      var fuel: nat :| StopsWithin(cols, selected.value, fuel);
      Ancestors(cols, selected.value, fuel) + ChildIds(Flatten(cols), selected.value)
  }

  /** The display filter's test: the node's id or its parent id is on the path. */
  predicate OnFlowPath(n: NodeData, path: seq<string>)
  {
    n.id in path || (n.parentId.Some? && n.parentId.value in path)
  }

  /** The nodes on the path or directly under it, in order. */
  function OnPath(ns: seq<NodeData>, path: seq<string>): (r: seq<NodeData>)
    ensures forall n :: n in r <==> n in ns && OnFlowPath(n, path)
  {
    if ns == [] then []
    else (if OnFlowPath(ns[0], path) then [ns[0]] else []) + OnPath(ns[1..], path)
  }
}
