/** Client runs of the canvas that show what its handlers do together. */
module FlowCanvasScenarios {
  import opened Wrappers
  import opened FlowTree
  import opened FlowCanvas

  /** A fresh canvas after adding node A to the first column. */
  method RootNodeAdded(a: string) returns (canvas: Canvas)
    ensures fresh(canvas) && canvas.Valid()
    ensures canvas.columns == AppendToColumn(InitialColumns, RootColumnId, NodeData(a, "A", None, Some("1")))
    ensures canvas.currentColumnId == Some(RootColumnId) && canvas.selectedNodeId == None
    ensures canvas.nodeToEdit == None
  {
    canvas := new Canvas();
    canvas.AddOrEditNode("A", "1", a);
  }

  /** The columns after adding A to the first column, and what clicking A then does to them. */
  lemma RootClickColumns(added: seq<Column>, a: string)
    requires a != ""
    requires added == AppendToColumn(InitialColumns, RootColumnId, NodeData(a, "A", None, Some("1")))
    ensures IndexOf(added, RootColumnId) == 0 && |added| == |ColumnIds| && ColumnIds[1] == SecondColumnId
    ensures var clicked := ClickedColumns(added, RootColumnId, a);
      && clicked[0].nodes == [NodeData(a, "A", None, Some("1"))] && clicked[1].nodes == []
      && clicked[1].isActive
  {
    assert added[0].nodes == [NodeData(a, "A", None, Some("1"))] && added[1].nodes == [];
    assert IndexOf(added, RootColumnId) == 0;
    var clicked := ClickedColumns(added, RootColumnId, a);
    assert clicked[0].nodes == added[0].nodes && clicked[1].nodes == added[1].nodes;
  }

  /** A fresh canvas after adding node A to the first column and clicking it. */
  method RootNodeClicked(a: string) returns (canvas: Canvas)
    requires a != ""
    ensures fresh(canvas) && canvas.Valid()
    ensures canvas.columns[0].nodes == [NodeData(a, "A", None, Some("1"))] && canvas.columns[1].nodes == []
    ensures canvas.columns[1].isActive
    ensures canvas.currentColumnId == Some(SecondColumnId) && canvas.selectedNodeId == Some(a)
    ensures canvas.nodeToEdit == None
  {
    canvas := RootNodeAdded(a);
    ghost var added := canvas.columns;
    RootClickColumns(added, a);
    canvas.NodeClick(RootColumnId, a);
  }

  /**
    Add A to the first column, click it and add B: B lands in the second column with A as
    its parent.
  */
  method ChildNodeAdded(a: string, b: string) returns (canvas: Canvas)
    requires a != "" && b != "" && a != b
    ensures fresh(canvas) && canvas.Valid()
    ensures canvas.columns[0].nodes == [NodeData(a, "A", None, Some("1"))]
    ensures canvas.columns[1].nodes == [NodeData(b, "B", Some(a), Some("1"))]
    ensures canvas.columns[1].isActive
  {
    canvas := RootNodeClicked(a);
    ghost var clicked := canvas.columns;
    canvas.AddOrEditNode("B", "1", b);
    assert canvas.columns == AppendToColumn(clicked, SecondColumnId, NodeData(b, "B", Some(a), Some("1")));
    assert canvas.columns[0] == clicked[0];
  }

  /**
    Then delete A: B is still there with its parent link to A (delete does not cascade),
    and the second column, not being empty, stays active.
  */
  method DeleteParentKeepsChild(a: string, b: string) returns (survivors: seq<NodeData>, secondActive: bool)
    requires a != "" && b != "" && a != b
    ensures survivors == [NodeData(b, "B", Some(a), Some("1"))]
    ensures secondActive
  {
    var canvas := ChildNodeAdded(a, b);
    ghost var added := canvas.columns;
    assert added[0].id == ColumnIds[0] == RootColumnId;
    assert added[1].id == ColumnIds[1] == SecondColumnId;
    assert RemoveId([NodeData(a, "A", None, Some("1"))], a) == RemoveId([], a) == [];
    canvas.NodeDelete(RootColumnId, a);
    assert canvas.columns[0].nodes == RemoveId(added[0].nodes, a) == [];
    assert canvas.columns[1].nodes == added[1].nodes;
    survivors := canvas.columns[1].nodes;
    secondActive := canvas.columns[1].isActive;
  }

  /**
    After a click in the first column the target is the second column. The first column's
    add button clears the selection but not the target, so the submitted node lands in the
    second column, with no parent.
  */
  method RootButtonAfterClick(a: string, c: string) returns (canvas: Canvas)
    requires a != ""
    ensures canvas.Valid()
    ensures canvas.columns[1].nodes == [NodeData(c, "C", None, Some("2"))]
    ensures canvas.selectedNodeId == None
  {
    var nodeC := NodeData(c, "C", None, Some("2"));
    canvas := RootNodeClicked(a);
    canvas.OpenRootAddDrawer();
    ghost var afterClick := canvas.columns;
    canvas.AddOrEditNode("C", "2", c);
    assert canvas.columns == AppendToColumn(afterClick, SecondColumnId, nodeC);
  }

  /** The node the first column's button put into the second column is then hidden by the filter. */
  method RootButtonAddsToTarget(a: string, c: string) returns (secondColumn: seq<NodeData>, shown: seq<NodeData>)
    requires a != ""
    ensures secondColumn == [NodeData(c, "C", None, Some("2"))]
    ensures shown == []
  {
    var canvas := RootButtonAfterClick(a, c);
    secondColumn := canvas.columns[1].nodes;
    assert canvas.columns[1].id == SecondColumnId;
    assert IndexOf(canvas.columns, SecondColumnId) == 1;
    shown := canvas.FilteredNodes(SecondColumnId);
  }
}
