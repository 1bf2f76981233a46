/**
  The flow canvas page (src/app/flows/flowcanvas/page.tsx) as an object: its component
  state becomes fields and each handler a method that replaces them, one sequential step
  per handler.
*/
module FlowCanvas {
  import opened Wrappers
  import opened Sequences
  import opened FlowTree
  import opened FlowTreeProperties

  /** The five fixed column ids are pairwise distinct. */
  lemma ColumnIdsDistinct()
    ensures forall i, j :: 0 <= i < j < |ColumnIds| ==> ColumnIds[i] != ColumnIds[j]
  {
  }

  /**
    A click on a canvas whose columns carry the fixed ids keeps those ids and all nodes, and
    its target is the fixed id after the clicked column, or none after the last one.
  */
  lemma ClickKeepsShape(cols: seq<Column>, columnId: string, nodeId: string)
    requires |cols| == |ColumnIds| && forall i :: 0 <= i < |cols| ==> cols[i].id == ColumnIds[i]
    ensures var r := ClickedColumns(cols, columnId, nodeId);
      && |r| == |ColumnIds| && (forall i :: 0 <= i < |r| ==> r[i].id == ColumnIds[i])
      && Flatten(r) == Flatten(cols)
    ensures var k := IndexOf(cols, columnId);
      ColumnIdAt(cols, k + 1) == if k + 1 < |cols| then Some(ColumnIds[k + 1]) else None
  {
    ClickIdempotent(cols, columnId, nodeId);
  }

  /** An edit keeps the fixed ids, every parent link and the tree invariant. */
  lemma EditKeepsShape(cols: seq<Column>, target: string, targetId: string, labelText: string, priority: Option<string>)
    requires |cols| == |ColumnIds| && forall i :: 0 <= i < |cols| ==> cols[i].id == ColumnIds[i]
    ensures var r := EditInColumn(cols, target, targetId, labelText, priority);
      && |r| == |ColumnIds| && (forall i :: 0 <= i < |r| ==> r[i].id == ColumnIds[i])
      && (forall i :: 0 <= i < |r| ==> SameLinks(r[i].nodes, cols[i].nodes))
      && (TreeInvariant(cols) ==> TreeInvariant(r))
  {
    if TreeInvariant(cols) {
      EditKeepsInvariant(cols, target, targetId, labelText, priority);
    }
  }

  /**
    An add to one of the fixed columns keeps the fixed ids, adds exactly the new node, and
    keeps the tree invariant when the node's id is fresh and its parent is the selection or none.
  */
  lemma AddKeepsShape(cols: seq<Column>, target: string, node: NodeData, selected: Option<string>)
    requires |cols| == |ColumnIds| && forall i :: 0 <= i < |cols| ==> cols[i].id == ColumnIds[i]
    requires target in ColumnIds
    requires node.parentId == selected || node.parentId == None
    ensures var r := AppendToColumn(cols, target, node);
      && |r| == |ColumnIds| && (forall i :: 0 <= i < |r| ==> r[i].id == ColumnIds[i])
      && multiset(Flatten(r)) == multiset(Flatten(cols)) + multiset{node}
      && (TreeInvariant(cols) && FreshNodeId(cols, node.id, selected) ==> TreeInvariant(r))
  {
    ColumnIdsDistinct();
    AppendAddsOne(cols, target, node);
    if TreeInvariant(cols) && FreshNodeId(cols, node.id, selected) {
      AddKeepsInvariant(cols, target, node);
    }
  }

  class Canvas {
    var columns: seq<Column>
    var isDrawerOpen: bool
    var currentColumnId: Option<string>
    var selectedNodeId: Option<string>
    var nodeToEdit: Option<NodeData>

    /** The columns keep their five fixed ids; the target column, when set, is one of them. */
    ghost predicate Valid()
      reads this
    {
      && |columns| == |ColumnIds|
      && (forall i :: 0 <= i < |columns| ==> columns[i].id == ColumnIds[i])
      && (currentColumnId.Some? ==> currentColumnId.value in ColumnIds)
    }

    constructor ()
      ensures Valid()
      ensures columns == InitialColumns && !isDrawerOpen
      ensures currentColumnId == Some(RootColumnId) && selectedNodeId == None && nodeToEdit == None
      ensures TreeInvariant(columns)
    {
      InitialInvariant();
      columns := InitialColumns;
      isDrawerOpen := false;
      currentColumnId := Some(RootColumnId);
      selectedNodeId := None;
      nodeToEdit := None;
    }

    /**
      Click on node `nodeId` of column `columnId`: selects it, activates and retitles the next
      column, activates the previous one, hides every column after the next one and makes the
      next column (or none, past the last) the target of the add form.
    */
    method NodeClick(columnId: string, nodeId: string)
      requires Valid()
      modifies this
      ensures Valid()
      ensures selectedNodeId == Some(nodeId)
      ensures columns == ClickedColumns(old(columns), columnId, nodeId)
      ensures Flatten(columns) == Flatten(old(columns))
      ensures currentColumnId == ColumnIdAt(old(columns), IndexOf(old(columns), columnId) + 1)
      ensures var k := IndexOf(old(columns), columnId);
        currentColumnId == if k + 1 < |columns| then Some(ColumnIds[k + 1]) else None
      ensures isDrawerOpen == old(isDrawerOpen) && nodeToEdit == old(nodeToEdit)
      ensures TreeInvariant(old(columns)) ==> TreeInvariant(columns)
    {
      selectedNodeId := Some(nodeId);
      var nextColumnIndex := IndexOf(columns, columnId) + 1;
      ClickKeepsShape(columns, columnId, nodeId);
      if TreeInvariant(columns) {
        ClickKeepsInvariant(columns, columnId, nodeId);
      }
      columns, currentColumnId := ClickedColumns(columns, columnId, nodeId), ColumnIdAt(columns, nextColumnIndex);
    }

    /** Double click on a node: it becomes the node the form edits, and the drawer opens. */
    method NodeDoubleClick(node: NodeData)
      requires Valid()
      modifies this
      ensures Valid()
      ensures nodeToEdit == Some(node) && isDrawerOpen
      ensures columns == old(columns) && currentColumnId == old(currentColumnId)
      ensures selectedNodeId == old(selectedNodeId)
    {
      nodeToEdit := Some(node);
      isDrawerOpen := true;
    }

    /** The add button of the first column: opens an empty form and clears the selection. */
    method OpenRootAddDrawer()
      requires Valid()
      modifies this
      ensures Valid()
      ensures nodeToEdit == None && isDrawerOpen && selectedNodeId == None
      ensures columns == old(columns) && currentColumnId == old(currentColumnId)
    {
      nodeToEdit := None;
      isDrawerOpen := true;
      selectedNodeId := None;
    }

    /** The add button of the target column: opens an empty form. */
    method OpenAddDrawer()
      requires Valid()
      modifies this
      ensures Valid()
      ensures nodeToEdit == None && isDrawerOpen
      ensures columns == old(columns) && currentColumnId == old(currentColumnId)
      ensures selectedNodeId == old(selectedNodeId)
    {
      nodeToEdit := None;
      isDrawerOpen := true;
    }

    /** Closing the drawer without submitting: edit mode is kept. */
    method CloseDrawer()
      requires Valid()
      modifies this
      ensures Valid()
      ensures !isDrawerOpen
      ensures columns == old(columns) && currentColumnId == old(currentColumnId)
      ensures selectedNodeId == old(selectedNodeId) && nodeToEdit == old(nodeToEdit)
    {
      isDrawerOpen := false;
    }

    /**
      Form submission. With no target column nothing happens. Otherwise, in edit mode the
      nodes with the edited id in the target column get the new label and priority; else a
      node with id `newId` is appended to the target column, with the selection as parent
      (none in the first column). A target of the first column clears the selection; the
      form leaves edit mode and the drawer closes.
    */
    method AddOrEditNode(title: string, priority: string, newId: string)
      requires Valid()
      modifies this
      ensures Valid()
      ensures currentColumnId == old(currentColumnId)
      ensures !Truthy(old(currentColumnId)) ==>
        && columns == old(columns) && selectedNodeId == old(selectedNodeId)
        && nodeToEdit == old(nodeToEdit) && isDrawerOpen == old(isDrawerOpen)
      ensures Truthy(old(currentColumnId)) ==>
        var target := old(currentColumnId).value;
        && selectedNodeId == (if target == RootColumnId then None else old(selectedNodeId))
        && nodeToEdit == None && !isDrawerOpen
        && columns == match old(nodeToEdit)
          case Some(e) => EditInColumn(old(columns), target, e.id, title, Some(priority))
          case None => AppendToColumn(old(columns), target,
            NodeData(newId, title, if target != RootColumnId then old(selectedNodeId) else None, Some(priority)))
      ensures Truthy(old(currentColumnId)) && old(nodeToEdit).None? ==>
        var target := old(currentColumnId).value;
        multiset(Flatten(columns)) == multiset(Flatten(old(columns))) +
          multiset{NodeData(newId, title, if target != RootColumnId then old(selectedNodeId) else None, Some(priority))}
      ensures Truthy(old(currentColumnId)) && old(nodeToEdit).Some? ==>
        forall i :: 0 <= i < |columns| ==> SameLinks(columns[i].nodes, old(columns)[i].nodes)
      ensures TreeInvariant(old(columns)) && (old(nodeToEdit).Some? || FreshNodeId(old(columns), newId, old(selectedNodeId)))
        ==> TreeInvariant(columns)
    {
      if Truthy(currentColumnId) {
        if nodeToEdit.Some? {
          EditInTarget(title, priority);
        } else {
          AddToTarget(title, priority, newId);
        }
      }
    }

    /** Form submission in edit mode with a target column. */
    method EditInTarget(title: string, priority: string)
      requires Valid() && Truthy(currentColumnId) && nodeToEdit.Some?
      modifies this
      ensures Valid()
      ensures currentColumnId == old(currentColumnId)
      ensures var target := old(currentColumnId).value;
        && selectedNodeId == (if target == RootColumnId then None else old(selectedNodeId))
        && nodeToEdit == None && !isDrawerOpen
        && columns == EditInColumn(old(columns), target, old(nodeToEdit).value.id, title, Some(priority))
      ensures forall i :: 0 <= i < |columns| ==> SameLinks(columns[i].nodes, old(columns)[i].nodes)
      ensures TreeInvariant(old(columns)) ==> TreeInvariant(columns)
    {
      var cols, selected, target, e := columns, selectedNodeId, currentColumnId.value, nodeToEdit.value;
      EditKeepsShape(cols, target, e.id, title, Some(priority));
      columns := EditInColumn(cols, target, e.id, title, Some(priority));
      selectedNodeId := if target == RootColumnId then None else selected;
      isDrawerOpen := false;
      nodeToEdit := None;
    }

    /** Form submission in add mode with a target column. */
    method AddToTarget(title: string, priority: string, newId: string)
      requires Valid() && Truthy(currentColumnId) && nodeToEdit.None?
      modifies this
      ensures Valid()
      ensures currentColumnId == old(currentColumnId)
      ensures var target := old(currentColumnId).value;
        var node := NodeData(newId, title, if target != RootColumnId then old(selectedNodeId) else None, Some(priority));
        && selectedNodeId == (if target == RootColumnId then None else old(selectedNodeId))
        && nodeToEdit == None && !isDrawerOpen
        && columns == AppendToColumn(old(columns), target, node)
        && multiset(Flatten(columns)) == multiset(Flatten(old(columns))) + multiset{node}
      ensures TreeInvariant(old(columns)) && FreshNodeId(old(columns), newId, old(selectedNodeId)) ==> TreeInvariant(columns)
    {
      var cols, selected, target := columns, selectedNodeId, currentColumnId.value;
      var newNode := NodeData(newId, title, if target != RootColumnId then selected else None, Some(priority));
      AddKeepsShape(cols, target, newNode, selected);
      columns := AppendToColumn(cols, target, newNode);
      selectedNodeId := if target == RootColumnId then None else selected;
      isDrawerOpen := false;
      nodeToEdit := None;
    }

    /**
      The highlighted path of the current selection, computed by walking parent links. The
      walk must stop; it does whenever the tree invariant holds (`InvariantTerminates`).
    */
    method FlowPathNodes() returns (flowPath: seq<string>)
      requires Terminates(columns, selectedNodeId)
      ensures flowPath == FlowPath(columns, selectedNodeId)
    {
      var cols, selected := columns, selectedNodeId;
      flowPath := [];
      var currentNodeId := selected;
      ghost var fuel: nat := 0;
      if Truthy(selected) {
        fuel :| StopsWithin(cols, selected.value, fuel);
      }
      ghost var fuel0 := fuel;
      ghost var walk := if Truthy(selected) then Ancestors(cols, selected.value, fuel) else [];
      while Truthy(currentNodeId)
        invariant Truthy(currentNodeId) ==> StopsWithin(cols, currentNodeId.value, fuel)
        invariant Truthy(currentNodeId) ==> walk == flowPath + Ancestors(cols, currentNodeId.value, fuel)
        invariant !Truthy(currentNodeId) ==> walk == flowPath
        decreases fuel
      {
        WalkStep(cols, currentNodeId.value, fuel, flowPath);
        var parentNode := NextId(cols, currentNodeId.value);
        flowPath := flowPath + [currentNodeId.value];
        currentNodeId := parentNode;
        fuel := fuel - 1;
      }
      if Truthy(selected) {
        FlowPathIs(cols, selected, fuel0);
        flowPath := flowPath + ChildIds(Flatten(cols), selected.value);
      }
    }

    /**
      The nodes shown in column `columnId`: the whole first column, whatever is selected;
      for any other column the nodes whose id or parent id is on the flow path, in order;
      nothing for an unknown column.
    */
    method FilteredNodes(columnId: string) returns (r: seq<NodeData>)
      requires columnId != RootColumnId ==> Terminates(columns, selectedNodeId)
      ensures columnId == RootColumnId ==> r == ColumnNodes(columns, columnId)
      ensures columnId != RootColumnId ==> r == OnPath(ColumnNodes(columns, columnId), FlowPath(columns, selectedNodeId))
      ensures IsSubsequence(r, ColumnNodes(columns, columnId))
      ensures IndexOf(columns, columnId) == -1 ==> r == []
    {
      if columnId == RootColumnId {
        r := ColumnNodes(columns, columnId);
        SubsequenceReflexive(r);
        return;
      }
      var flowPathNodes := FlowPathNodes();
      r := OnPath(ColumnNodes(columns, columnId), flowPathNodes);
      OnPathIsSubsequence(ColumnNodes(columns, columnId), flowPathNodes);
    }

    /**
      Deletes the nodes with id `nodeId` from column `columnId` only (no cascade to their
      children), then hides every empty column past the first. Selection is untouched.
    */
    method NodeDelete(columnId: string, nodeId: string)
      requires Valid()
      modifies this
      ensures Valid()
      ensures columns == DeactivateEmpty(RemoveFromColumn(old(columns), columnId, nodeId))
      ensures forall i :: 0 <= i < |columns| ==>
        && columns[i].id == old(columns)[i].id && columns[i].title == old(columns)[i].title
        && columns[i].nodes == (if old(columns)[i].id == columnId then RemoveId(old(columns)[i].nodes, nodeId)
                                else old(columns)[i].nodes)
        && columns[i].isActive == (old(columns)[i].isActive && !(i > 0 && columns[i].nodes == []))
      ensures forall n :: n in Flatten(old(columns)) && n.id != nodeId ==> n in Flatten(columns)
      ensures selectedNodeId == old(selectedNodeId) && currentColumnId == old(currentColumnId)
      ensures nodeToEdit == old(nodeToEdit) && isDrawerOpen == old(isDrawerOpen)
      ensures TreeInvariant(old(columns)) ==> TreeInvariant(columns)
    {
      DeleteNoCascade(columns, columnId, nodeId);
      if TreeInvariant(columns) {
        DeleteKeepsInvariant(columns, columnId, nodeId);
      }
      columns := RemoveFromColumn(columns, columnId, nodeId);
      columns := DeactivateEmpty(columns);
    }
  }
}
