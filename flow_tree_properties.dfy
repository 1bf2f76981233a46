/** What the flow-tree transformations and queries of FlowTree guarantee. */
module FlowTreeProperties {
  import opened Wrappers
  import opened Sequences
  import opened FlowTree

  /** Column ids are pairwise distinct (true of the canvas's five fixed columns). */
  ghost predicate UniqueColumnIds(cols: seq<Column>)
  {
    forall i, j :: 0 <= i < j < |cols| ==> cols[i].id != cols[j].id
  }

  /** Two node lists agree on ids and parent links position by position. */
  ghost predicate SameLinks(a: seq<NodeData>, b: seq<NodeData>)
  {
    |a| == |b| && forall i :: 0 <= i < |a| ==> a[i].id == b[i].id && a[i].parentId == b[i].parentId
  }

  // ---------------------------------------------------------------- lookups

  /** A node is in the flattened list exactly when some column holds it. */
  lemma {:induction false} FlattenMembers(cols: seq<Column>)
    ensures forall n :: n in Flatten(cols) <==> exists i :: 0 <= i < |cols| && n in cols[i].nodes
  {
    if cols != [] {
      FlattenMembers(cols[1..]);
      forall n | n in Flatten(cols[1..]) ensures exists i :: 1 <= i < |cols| && n in cols[i].nodes {
        var i :| 0 <= i < |cols[1..]| && n in cols[1..][i].nodes;
        assert n in cols[i + 1].nodes;
      }
      forall n, i | 1 <= i < |cols| && n in cols[i].nodes ensures n in Flatten(cols[1..]) {
        assert n in cols[1..][i - 1].nodes;
      }
    }
  }

  /** The flattened node list depends on the columns' node lists only. */
  lemma {:induction false} FlattenSameNodes(a: seq<Column>, b: seq<Column>)
    requires |a| == |b|
    requires forall i :: 0 <= i < |a| ==> a[i].nodes == b[i].nodes
    ensures Flatten(a) == Flatten(b)
  {
    if a != [] {
      FlattenSameNodes(a[1..], b[1..]);
    }
  }

  /** Columns that agree position by position on their links flatten to lists that agree on their links. */
  lemma {:induction false} FlattenSameLinks(a: seq<Column>, b: seq<Column>)
    requires |a| == |b|
    requires forall i :: 0 <= i < |a| ==> SameLinks(a[i].nodes, b[i].nodes)
    ensures SameLinks(Flatten(a), Flatten(b))
  {
    if a != [] {
      FlattenSameLinks(a[1..], b[1..]);
      var fa, fb := Flatten(a[1..]), Flatten(b[1..]);
      assert Flatten(a) == a[0].nodes + fa;
      assert Flatten(b) == b[0].nodes + fb;
      assert SameLinks(a[0].nodes, b[0].nodes);
    }
  }

  /** Lookup by id finds corresponding nodes in two lists with the same links. */
  lemma {:induction false} FindSameLinks(a: seq<NodeData>, b: seq<NodeData>, id: string)
    requires SameLinks(a, b)
    ensures FindNode(a, id).Some? == FindNode(b, id).Some?
    ensures FindNode(a, id).Some? ==> FindNode(a, id).value.parentId == FindNode(b, id).value.parentId
  {
    if a != [] && a[0].id != id {
      FindSameLinks(a[1..], b[1..], id);
    }
  }

  /** The children of a node depend only on ids and parent links. */
  lemma {:induction false} ChildIdsSameLinks(a: seq<NodeData>, b: seq<NodeData>, p: string)
    requires SameLinks(a, b)
    ensures ChildIds(a, p) == ChildIds(b, p)
  {
    if a != [] {
      ChildIdsSameLinks(a[1..], b[1..], p);
    }
  }

  /** Lookup by id returns the first node with that id. */
  lemma {:induction false} FindNodeFirst(ns: seq<NodeData>, id: string)
    ensures FindNode(ns, id).Some? <==> FirstWithId(ns, id) >= 0
    ensures FindNode(ns, id).Some? ==> FindNode(ns, id).value == ns[FirstWithId(ns, id)]
  {
    if ns != [] && ns[0].id != id {
      FindNodeFirst(ns[1..], id);
    }
  }

  /** A walk step goes to the parent of a node carrying the id; an id no node carries ends the walk. */
  lemma NextIdSpec(cols: seq<Column>, id: string)
    ensures var r := NextId(cols, id);
      && (r.Some? ==> exists n :: n in Flatten(cols) && n.id == id && n.parentId == r)
      && ((forall n :: n in Flatten(cols) ==> n.id != id) ==> r.None?)
  {
  }

  /** The walk step from an id that names a node is that first node's parent id, when truthy. */
  lemma NextIdFirst(cols: seq<Column>, id: string)
    ensures var ns, k := Flatten(cols), FirstWithId(Flatten(cols), id);
      k >= 0 ==> NextId(cols, id) == if Truthy(ns[k].parentId) then ns[k].parentId else None
  {
    FindNodeFirst(Flatten(cols), id);
  }

  /** The walk step depends only on ids and parent links. */
  lemma NextIdSameLinks(a: seq<Column>, b: seq<Column>)
    requires |a| == |b|
    requires forall i :: 0 <= i < |a| ==> SameLinks(a[i].nodes, b[i].nodes)
    ensures forall x :: NextId(a, x) == NextId(b, x)
  {
    FlattenSameLinks(a, b);
    forall x ensures NextId(a, x) == NextId(b, x) {
      FindSameLinks(Flatten(a), Flatten(b), x);
    }
  }

  // ---------------------------------------------------------------- the path walk

  /**
    The walk starts at `id`, visits at most `fuel` ids, steps each time to the previous
    entry's parent, and ends at an id whose node has no parent or is no longer present.
  */
  lemma {:induction false} AncestorsShape(cols: seq<Column>, id: string, fuel: nat)
    requires StopsWithin(cols, id, fuel)
    ensures var w := Ancestors(cols, id, fuel);
      && 1 <= |w| <= fuel && w[0] == id
      && (forall i :: 0 <= i < |w| - 1 ==> NextId(cols, w[i]) == Some(w[i + 1]))
      && NextId(cols, w[|w| - 1]).None?
    decreases fuel
  {
    match NextId(cols, id)
    case None =>
    case Some(p) =>
      AncestorsShape(cols, p, fuel - 1);
      var w := Ancestors(cols, id, fuel);
      assert w[1..] == Ancestors(cols, p, fuel - 1);
  }

  /**
    One step of the parent walk: the ids visited so far grow by the current one and the
    walk goes on from its parent, with one unit of fuel less.
  */
  lemma WalkStep(cols: seq<Column>, id: string, fuel: nat, visited: seq<string>)
    requires StopsWithin(cols, id, fuel)
    ensures Truthy(NextId(cols, id)) ==> StopsWithin(cols, NextId(cols, id).value, fuel - 1)
    ensures Truthy(NextId(cols, id)) ==>
      visited + Ancestors(cols, id, fuel) == (visited + [id]) + Ancestors(cols, NextId(cols, id).value, fuel - 1)
    ensures !Truthy(NextId(cols, id)) ==> visited + Ancestors(cols, id, fuel) == visited + [id]
  {
    var next := NextId(cols, id);
    if Truthy(next) {
      var tail := Ancestors(cols, next.value, fuel - 1);
      assert Ancestors(cols, id, fuel) == [id] + tail;
      assert visited + ([id] + tail) == (visited + [id]) + tail;
    } else {
      assert next.None?;
      assert Ancestors(cols, id, fuel) == [id];
    }
  }

  /** The visited ids do not depend on how much fuel was granted. */
  lemma {:induction false} AncestorsFuel(cols: seq<Column>, id: string, f1: nat, f2: nat)
    requires StopsWithin(cols, id, f1) && StopsWithin(cols, id, f2)
    ensures Ancestors(cols, id, f1) == Ancestors(cols, id, f2)
    decreases f1
  {
    match NextId(cols, id)
    case None =>
    case Some(p) => AncestorsFuel(cols, p, f1 - 1, f2 - 1);
  }

  /** The flow path is this walk followed by the children, whatever fuel bounds the walk. */
  lemma FlowPathIs(cols: seq<Column>, selected: Option<string>, fuel: nat)
    requires Truthy(selected) && StopsWithin(cols, selected.value, fuel)
    ensures Terminates(cols, selected)
    ensures FlowPath(cols, selected) == Ancestors(cols, selected.value, fuel) + ChildIds(Flatten(cols), selected.value)
  {
    forall f: nat | StopsWithin(cols, selected.value, f)
      ensures Ancestors(cols, selected.value, f) == Ancestors(cols, selected.value, fuel)
    {
      AncestorsFuel(cols, selected.value, f, fuel);
    }
  }

  /**
    The shape of the highlighted path: empty with no selection; otherwise it starts at the
    selection, each next entry is the previous entry's parent, the walk ends at an id whose
    node has no parent or is no longer present, and the selection's children follow.
  */
  lemma FlowPathShape(cols: seq<Column>, selected: Option<string>)
    requires Terminates(cols, selected)
    ensures !Truthy(selected) ==> FlowPath(cols, selected) == []
    ensures Truthy(selected) ==>
      var p := FlowPath(cols, selected);
      exists m :: 1 <= m <= |p| && p[0] == selected.value
        && (forall i :: 0 <= i < m - 1 ==> NextId(cols, p[i]) == Some(p[i + 1]))
        && NextId(cols, p[m - 1]).None?
        && p[m..] == ChildIds(Flatten(cols), selected.value)
  {
    if Truthy(selected) {
      var fuel: nat :| StopsWithin(cols, selected.value, fuel);
      FlowPathIs(cols, selected, fuel);
      AncestorsShape(cols, selected.value, fuel);
      var w := Ancestors(cols, selected.value, fuel);
      var p := FlowPath(cols, selected);
      var m, c := |w|, ChildIds(Flatten(cols), selected.value);
      assert p == w + c;
      assert forall i :: 0 <= i < m ==> p[i] == w[i];
      assert p[m..] == c;
      assert p[m - 1] == w[|w| - 1];
      assert NextId(cols, p[m - 1]) == NextId(cols, w[|w| - 1]);
      assert forall i :: 0 <= i < m - 1 ==> NextId(cols, p[i]) == Some(p[i + 1]);
      assert 1 <= m <= |p| && p[0] == selected.value
        && (forall i :: 0 <= i < m - 1 ==> NextId(cols, p[i]) == Some(p[i + 1]))
        && NextId(cols, p[m - 1]).None?
        && p[m..] == c;
    }
  }

  /** A set of ids closed under the walk step is never left: the walk from it never stops. */
  lemma {:induction false} ClosedSetNeverStops(cols: seq<Column>, s: set<string>, x: string, fuel: nat)
    requires x in s
    requires forall y :: y in s ==> NextId(cols, y).Some? && NextId(cols, y).value in s
    ensures !StopsWithin(cols, x, fuel)
    decreases fuel
  {
    if fuel > 0 {
      assert NextId(cols, x).Some?;
      var y := NextId(cols, x).value;
      ClosedSetNeverStops(cols, s, y, fuel - 1);
      assert StopsWithin(cols, x, fuel) == StopsWithin(cols, y, fuel - 1);
    }
  }

  /** A selection on a parent cycle makes the path computation diverge. */
  lemma CycleDiverges(cols: seq<Column>, selected: Option<string>, s: set<string>)
    requires Truthy(selected) && selected.value in s
    requires forall y :: y in s ==> NextId(cols, y).Some? && NextId(cols, y).value in s
    ensures !Terminates(cols, selected)
  {
    forall fuel: nat ensures !StopsWithin(cols, selected.value, fuel) {
      ClosedSetNeverStops(cols, s, selected.value, fuel);
    }
  }

  // ---------------------------------------------------------------- the display filter

  /** The display filter keeps an order-preserving sublist. */
  lemma {:induction false} OnPathIsSubsequence(ns: seq<NodeData>, path: seq<string>)
    ensures IsSubsequence(OnPath(ns, path), ns)
  {
    if ns != [] {
      OnPathIsSubsequence(ns[1..], path);
      var r := OnPath(ns, path);
      if OnFlowPath(ns[0], path) {
        assert r[1..] == OnPath(ns[1..], path);
      } else {
        assert r == OnPath(ns[1..], path);
      }
    }
  }

  // ---------------------------------------------------------------- click

  /**
    What a click does to activation and titles: the column after the clicked one opens with
    the clicked node's title, the one before shows, every later one hides, and the rest
    are unchanged (all columns after the first hide when the column is unknown).
  */
  lemma ClickActivation(cols: seq<Column>, columnId: string, nodeId: string)
    ensures var r, k := ClickedColumns(cols, columnId, nodeId), IndexOf(cols, columnId);
      && (k + 1 < |cols| ==> r[k + 1].isActive && r[k + 1].title == ColumnTitle(FindNode(Flatten(cols), nodeId)))
      && (1 <= k ==> r[k - 1].isActive && r[k - 1].title == cols[k - 1].title)
      && (forall i :: k + 1 < i < |cols| ==> !r[i].isActive && r[i].title == cols[i].title)
      && (forall i :: 0 <= i < |cols| && (i < k - 1 || i == k) ==> r[i] == cols[i])
  {
  }

  /** A click keeps ids and nodes, so repeating it reproduces the same columns and target. */
  lemma ClickIdempotent(cols: seq<Column>, columnId: string, nodeId: string)
    ensures var r := ClickedColumns(cols, columnId, nodeId);
      && Flatten(r) == Flatten(cols)
      && ClickedColumns(r, columnId, nodeId) == r
      && ColumnIdAt(r, IndexOf(r, columnId) + 1) == ColumnIdAt(cols, IndexOf(cols, columnId) + 1)
  {
    var r := ClickedColumns(cols, columnId, nodeId);
    FlattenSameNodes(r, cols);
    var k := IndexOf(cols, columnId);
    assert IndexOf(r, columnId) == k;
    var title := ColumnTitle(FindNode(Flatten(cols), nodeId));
    assert r == ActivateAround(cols, k, title);
    var r2 := ActivateAround(r, k, title);
    assert forall i :: 0 <= i < |r| ==> r2[i] == r[i];
  }

  // ---------------------------------------------------------------- add

  lemma AppendTail(cols: seq<Column>, columnId: string, node: NodeData)
    requires cols != []
    ensures AppendToColumn(cols, columnId, node)[1..] == AppendToColumn(cols[1..], columnId, node)
  {
  }

  lemma AppendAbsent(cols: seq<Column>, columnId: string, node: NodeData)
    requires forall i :: 0 <= i < |cols| ==> cols[i].id != columnId
    ensures AppendToColumn(cols, columnId, node) == cols
  {
  }

  /** Adding to a column that exists exactly once adds exactly one node to the whole tree. */
  lemma {:induction false} AppendAddsOne(cols: seq<Column>, columnId: string, node: NodeData)
    requires UniqueColumnIds(cols) && IndexOf(cols, columnId) >= 0
    ensures multiset(Flatten(AppendToColumn(cols, columnId, node))) == multiset(Flatten(cols)) + multiset{node}
  {
    var r := AppendToColumn(cols, columnId, node);
    AppendTail(cols, columnId, node);
    assert Flatten(r) == r[0].nodes + Flatten(r[1..]);
    assert Flatten(cols) == cols[0].nodes + Flatten(cols[1..]);
    if cols[0].id == columnId {
      AppendAbsent(cols[1..], columnId, node);
    } else {
      AppendAddsOne(cols[1..], columnId, node);
    }
  }

  /**
    With a fresh id, the added node is the only node carrying it, lookup finds it, and the
    walk steps from it to its parent link.
  */
  lemma AddedNodeIsFound(cols: seq<Column>, columnId: string, node: NodeData)
    requires UniqueColumnIds(cols) && IndexOf(cols, columnId) >= 0
    requires forall n :: n in Flatten(cols) ==> n.id != node.id
    ensures var r := AppendToColumn(cols, columnId, node);
      && (forall m :: m in Flatten(r) && m.id == node.id ==> m == node)
      && FindNode(Flatten(r), node.id) == Some(node)
      && NextId(r, node.id) == (if Truthy(node.parentId) then node.parentId else None)
  {
    var r := AppendToColumn(cols, columnId, node);
    AppendAddsOne(cols, columnId, node);
    forall m | m in Flatten(r) && m.id == node.id ensures m == node {
      assert m in multiset(Flatten(r));
    }
    assert node in multiset(Flatten(r));
  }

  // ---------------------------------------------------------------- edit

  /** An edit keeps every column's ids and parent links, hence every walk step and the whole path. */
  lemma EditKeepsFlowPath(cols: seq<Column>, columnId: string, targetId: string, labelText: string,
                          priority: Option<string>, selected: Option<string>)
    requires Terminates(cols, selected)
    ensures var r := EditInColumn(cols, columnId, targetId, labelText, priority);
      && (forall i :: 0 <= i < |cols| ==> SameLinks(r[i].nodes, cols[i].nodes))
      && Terminates(r, selected)
      && FlowPath(r, selected) == FlowPath(cols, selected)
  {
    var r := EditInColumn(cols, columnId, targetId, labelText, priority);
    assert forall i :: 0 <= i < |cols| ==> SameLinks(r[i].nodes, cols[i].nodes);
    NextIdSameLinks(r, cols);
    FlattenSameLinks(r, cols);
    if Truthy(selected) {
      var fuel: nat :| StopsWithin(cols, selected.value, fuel);
      SameStepsSameWalk(cols, r, selected.value, fuel);
      FlowPathIs(cols, selected, fuel);
      FlowPathIs(r, selected, fuel);
      ChildIdsSameLinks(Flatten(r), Flatten(cols), selected.value);
    }
  }

  /** Two trees with the same walk step have the same walks. */
  lemma {:induction false} SameStepsSameWalk(a: seq<Column>, b: seq<Column>, id: string, fuel: nat)
    requires forall x :: NextId(a, x) == NextId(b, x)
    requires StopsWithin(a, id, fuel)
    ensures StopsWithin(b, id, fuel) && Ancestors(a, id, fuel) == Ancestors(b, id, fuel)
    decreases fuel
  {
    assert NextId(a, id) == NextId(b, id);
    if NextId(a, id).Some? {
      SameStepsSameWalk(a, b, NextId(a, id).value, fuel - 1);
    }
  }

  // ---------------------------------------------------------------- delete

  /** The filter that removes one id keeps an order-preserving sublist. */
  lemma {:induction false} RemoveIdIsSubsequence(ns: seq<NodeData>, x: string)
    ensures IsSubsequence(RemoveId(ns, x), ns)
  {
    if ns != [] {
      RemoveIdIsSubsequence(ns[1..], x);
      var r := RemoveId(ns, x);
      if ns[0].id != x {
        assert r[1..] == RemoveId(ns[1..], x);
      } else {
        assert r == RemoveId(ns[1..], x);
      }
    }
  }

  /**
    Delete is not cascading: only column `columnId` loses nodes, it loses exactly those with
    id `x`, and every other node of the tree (its children included) is still present.
  */
  lemma DeleteNoCascade(cols: seq<Column>, columnId: string, x: string)
    ensures var r := DeactivateEmpty(RemoveFromColumn(cols, columnId, x));
      && |r| == |cols|
      && (forall i :: 0 <= i < |cols| && cols[i].id != columnId ==> r[i].nodes == cols[i].nodes)
      && (forall i :: 0 <= i < |cols| && cols[i].id == columnId ==> IsSubsequence(r[i].nodes, cols[i].nodes))
      && (forall i, n :: 0 <= i < |cols| && cols[i].id == columnId && n in r[i].nodes ==> n.id != x)
      && (forall n :: n in Flatten(cols) && n.id != x ==> n in Flatten(r))
  {
    var r := DeactivateEmpty(RemoveFromColumn(cols, columnId, x));
    forall i | 0 <= i < |cols| && cols[i].id == columnId
      ensures IsSubsequence(r[i].nodes, cols[i].nodes)
    {
      RemoveIdIsSubsequence(cols[i].nodes, x);
    }
    FlattenMembers(cols);
    FlattenMembers(r);
    forall n | n in Flatten(cols) && n.id != x ensures n in Flatten(r) {
      var i :| 0 <= i < |cols| && n in cols[i].nodes;
      assert n in r[i].nodes;
    }
  }

  // ---------------------------------------------------------------- the tree invariant

  /**
    Nodes that share an id share their parent link, so the walk step does not depend on
    which of them lookup finds first.
  */
  ghost predicate ConsistentLinks(cols: seq<Column>)
  {
    forall m, n :: m in Flatten(cols) && n in Flatten(cols) && m.id == n.id ==> m.parentId == n.parentId
  }

  /** The path walk stops from every starting id. */
  ghost predicate WalksStop(cols: seq<Column>)
  {
    forall x: string :: Terminates(cols, Some(x))
  }

  /** What keeps the highlighted path computable whatever node is selected. */
  ghost predicate TreeInvariant(cols: seq<Column>)
  {
    ConsistentLinks(cols) && WalksStop(cols)
  }

  /**
    `id` is a fresh node id for the tree, given the selection that becomes the new node's
    parent: no node has it as id or as parent, and it is not the selection itself.
  */
  ghost predicate FreshNodeId(cols: seq<Column>, id: string, selected: Option<string>)
  {
    && (forall n :: n in Flatten(cols) ==> n.id != id && n.parentId != Some(id))
    && selected != Some(id)
  }

  /** Under the invariant the path loop terminates for every selection. */
  lemma InvariantTerminates(cols: seq<Column>, selected: Option<string>)
    requires TreeInvariant(cols)
    ensures Terminates(cols, selected)
  {
    if Truthy(selected) {
      assert Terminates(cols, Some(selected.value));
    }
  }

  /** The five empty columns the canvas starts with satisfy the invariant. */
  lemma InitialInvariant()
    ensures TreeInvariant(InitialColumns)
  {
    assert forall i :: 0 <= i < |InitialColumns| ==> InitialColumns[i].nodes == [];
    FlattenMembers(InitialColumns);
    forall x: string ensures Terminates(InitialColumns, Some(x)) {
      assert StopsWithin(InitialColumns, x, 1);
    }
  }

  /** With consistent links the walk step from a node's id is that node's own non-empty parent link. */
  lemma NextIdOfNode(cols: seq<Column>, n: NodeData)
    requires ConsistentLinks(cols) && n in Flatten(cols)
    ensures NextId(cols, n.id) == if Truthy(n.parentId) then n.parentId else None
  {
    var m := FindNode(Flatten(cols), n.id).value;
    assert m.parentId == n.parentId;
  }

  /** A walk that stops still stops when some steps are cut short and the rest are kept. */
  lemma {:induction false} CutStepsKeepStop(a: seq<Column>, b: seq<Column>, x: string, fuel: nat)
    requires forall y :: NextId(b, y).None? || NextId(b, y) == NextId(a, y)
    requires StopsWithin(a, x, fuel)
    ensures StopsWithin(b, x, fuel)
    decreases fuel
  {
    if NextId(b, x).Some? {
      CutStepsKeepStop(a, b, NextId(a, x).value, fuel - 1);
    }
  }

  /** A tree whose nodes all come from a tree with the invariant has it too. */
  lemma SubTreeKeepsInvariant(a: seq<Column>, b: seq<Column>)
    requires TreeInvariant(a)
    requires forall n :: n in Flatten(b) ==> n in Flatten(a)
    ensures TreeInvariant(b)
  {
    forall y ensures NextId(b, y).None? || NextId(b, y) == NextId(a, y) {
      if NextId(b, y).Some? {
        var n :| n in Flatten(b) && n.id == y && n.parentId == NextId(b, y);
        NextIdOfNode(b, n);
        NextIdOfNode(a, n);
      }
    }
    forall x: string ensures Terminates(b, Some(x)) {
      if x != "" {
        assert Terminates(a, Some(x));
        var fuel: nat :| StopsWithin(a, x, fuel);
        CutStepsKeepStop(a, b, x, fuel);
      }
    }
  }

  /** A click keeps the invariant. */
  lemma ClickKeepsInvariant(cols: seq<Column>, columnId: string, nodeId: string)
    requires TreeInvariant(cols)
    ensures TreeInvariant(ClickedColumns(cols, columnId, nodeId))
  {
    ClickIdempotent(cols, columnId, nodeId);
    SubTreeKeepsInvariant(cols, ClickedColumns(cols, columnId, nodeId));
  }

  /** A delete, sweep included, keeps the invariant. */
  lemma DeleteKeepsInvariant(cols: seq<Column>, columnId: string, x: string)
    requires TreeInvariant(cols)
    ensures TreeInvariant(DeactivateEmpty(RemoveFromColumn(cols, columnId, x)))
  {
    var r := DeactivateEmpty(RemoveFromColumn(cols, columnId, x));
    FlattenMembers(cols);
    FlattenMembers(r);
    forall n | n in Flatten(r) ensures n in Flatten(cols) {
      var i :| 0 <= i < |r| && n in r[i].nodes;
      assert n in cols[i].nodes;
    }
    SubTreeKeepsInvariant(cols, r);
  }

  /** An edit keeps the invariant: it changes labels and priorities only. */
  lemma EditKeepsInvariant(cols: seq<Column>, columnId: string, targetId: string, labelText: string,
                           priority: Option<string>)
    requires TreeInvariant(cols)
    ensures TreeInvariant(EditInColumn(cols, columnId, targetId, labelText, priority))
  {
    var r := EditInColumn(cols, columnId, targetId, labelText, priority);
    assert forall i :: 0 <= i < |cols| ==> SameLinks(r[i].nodes, cols[i].nodes);
    NextIdSameLinks(r, cols);
    FlattenSameLinks(r, cols);
    var fr, fc := Flatten(r), Flatten(cols);
    forall m, n | m in fr && n in fr && m.id == n.id ensures m.parentId == n.parentId {
      var i :| 0 <= i < |fr| && fr[i] == m;
      var j :| 0 <= j < |fr| && fr[j] == n;
      assert fc[i] in fc && fc[j] in fc;
    }
    forall x: string ensures Terminates(r, Some(x)) {
      if x != "" {
        assert Terminates(cols, Some(x));
        var fuel: nat :| StopsWithin(cols, x, fuel);
        CutStepsKeepStop(cols, r, x, fuel);
      }
    }
  }

  /** Away from a fresh id, a stopping walk keeps stopping once the fresh id gets its own step. */
  lemma {:induction false} FreshStepKeepsStop(a: seq<Column>, b: seq<Column>, newId: string, x: string, fuel: nat)
    requires forall y :: y != newId ==> NextId(b, y) == NextId(a, y)
    requires forall y :: NextId(a, y) != Some(newId)
    requires x != newId && StopsWithin(a, x, fuel)
    ensures StopsWithin(b, x, fuel)
    decreases fuel
  {
    if NextId(a, x).Some? {
      FreshStepKeepsStop(a, b, newId, NextId(a, x).value, fuel - 1);
    }
  }

  /** Adding a node with a fresh id keeps the invariant. */
  lemma AddKeepsInvariant(cols: seq<Column>, columnId: string, node: NodeData)
    requires TreeInvariant(cols)
    requires forall n :: n in Flatten(cols) ==> n.id != node.id && n.parentId != Some(node.id)
    requires node.parentId != Some(node.id)
    ensures TreeInvariant(AppendToColumn(cols, columnId, node))
  {
    var r := AppendToColumn(cols, columnId, node);
    FlattenMembers(cols);
    FlattenMembers(r);
    forall n | n in Flatten(r) ensures n in Flatten(cols) || n == node {
      var i :| 0 <= i < |r| && n in r[i].nodes;
      if n != node {
        assert n in cols[i].nodes;
      }
    }
    forall n | n in Flatten(cols) ensures n in Flatten(r) {
      var i :| 0 <= i < |cols| && n in cols[i].nodes;
      assert n in r[i].nodes;
    }
    assert ConsistentLinks(r);
    forall y | y != node.id ensures NextId(r, y) == NextId(cols, y) {
      if exists n :: n in Flatten(r) && n.id == y {
        var n :| n in Flatten(r) && n.id == y;
        NextIdOfNode(r, n);
        NextIdOfNode(cols, n);
      }
    }
    forall y ensures NextId(cols, y) != Some(node.id) {
      if NextId(cols, y).Some? {
        var n :| n in Flatten(cols) && n.id == y && n.parentId == NextId(cols, y);
      }
    }
    forall x: string ensures Terminates(r, Some(x)) {
      if x == node.id {
        if NextId(r, x).Some? {
          var n :| n in Flatten(r) && n.id == x && n.parentId == NextId(r, x);
          var p := NextId(r, x).value;
          assert n == node && p != node.id;
          assert Terminates(cols, Some(p));
          var fuel: nat :| StopsWithin(cols, p, fuel);
          FreshStepKeepsStop(cols, r, node.id, p, fuel);
          assert StopsWithin(r, x, fuel + 1);
        } else {
          assert StopsWithin(r, x, 1);
        }
      } else if x != "" {
        assert Terminates(cols, Some(x));
        var fuel: nat :| StopsWithin(cols, x, fuel);
        FreshStepKeepsStop(cols, r, node.id, x, fuel);
      }
    }
  }
}
