# e-referral flow builder — a Dafny model

This project models the client-side logic of the e-referral administration dashboard. Its
centre is the **flow canvas**: five fixed columns of prompt nodes, where a node in one column
points to its parent in an earlier column through `parentId`. The canvas handles:
- clicking a node, which selects it, reveals and retitles the next column and hides the later ones;
- adding a node under the selection, or editing one;
- highlighting the path from the selection up to the root;
- filtering each column to the nodes on that path;
- deleting a node.

Beside it sit four small state machines:
- the generic form with its terminate/validate checkboxes;
- the USSD phone simulator;
- the flows list page, with its four status buckets and create drawer;
- the authentication stub over the browser's key/value store.

Each React component becomes a Dafny `class`. Its `useState` variables become fields, and
each event handler becomes a method that replaces them in one sequential step. React's
state updaters are applied in program order. Pure computations are functions over values.
Each function is proved against its contract and the lemmas beside it.

Modules:
- `Wrappers` and `Sequences` (wrappers.dfy): `Option` (JavaScript `null`/`undefined`), string
  truthiness, and order-preserving sublists (`IsSubsequence`).
- `FlowTree` (flow_tree.dfy): `NodeData`, `Column`, the initial columns, lookups, the
  per-handler transformations of the column list, the parent walk and the display filter.
- `FlowTreeProperties` (flow_tree_properties.dfy): lemmas about these.
- `FlowCanvas` (flow_canvas.dfy): class `Canvas`, the canvas page's state and handlers.
- `FlowCanvasScenarios` (flow_canvas_scenarios.dfy): client runs of `Canvas`.
- `Forms`, `MobileSimulator`, `FlowsPage`, `Auth`: one module per remaining file.

The field `label` of the source is called `labelText` (`label` is a Dafny keyword). Ids that
the source takes from the clock (`Date.now()`) are method parameters. Where a property
needs them fresh, a lemma or an implication in a postcondition states that as a hypothesis
(`AddedNodeIsFound`, `AddOrEditNode`, `SaveKeepsIdsUnique`); the code itself does not
guarantee it.

## Behaviour of the code worth knowing

Each point below is what page.tsx does as written, and the model keeps it:
- **Delete does not cascade.** It removes the nodes with the given id from the given column
  only. Their children stay, still pointing at the removed id (`DeleteNoCascade`,
  `DeleteParentKeepsChild`). The selection is not reset either.
- **A click on a node not in the column still selects it.** The new column title for a node
  that is not found anywhere is ": ". For an unknown column id, the first column is activated
  and retitled, every other column is hidden, and the first column becomes the target.
- **Add is refused only when no target column is set.** A non-root target with no selection
  yields a node with no parent. The first column's add button clears the selection but keeps
  the previous target. So after a click in the first column, the "add to first column" node
  goes to the second column, where the filter hides it (`RootButtonAddsToTarget`).
- **The highlighted path also holds the selection's direct children.** A parent id that no
  longer resolves is still pushed onto the path before the walk stops.
- **Lookups take the first match.** Finding a node by id scans the columns left to right and
  returns the first node with that id (`FindNodeFirst`, `NextIdFirst`).
- **The path walk diverges on a parent cycle.** `CycleDiverges` shows that a selection on a
  cycle of parent links makes the loop of `getFlowPathNodes` run forever, so `FlowPathNodes`
  and `FilteredNodes` require that the walk terminates (`Terminates`). The tree invariant
  `TreeInvariant` (nodes sharing an id share their parent link, and the walk stops from
  every id) implies termination for every selection (`InvariantTerminates`). The initial
  columns satisfy it (`InitialInvariant`). Click, double click, edit and delete keep it, and
  so does an add whose clock id is fresh: used by no node as id or parent link, and not the
  selection (`FreshNodeId`).

## Model

| member | source | states |
|---|---|---|
| `FlowTree.IndexOf` | src/app/flows/flowcanvas/page.tsx:64-65 | the index of the first column with the id, or -1 exactly when no column has it |
| `FlowTree.FirstWithId` | src/app/flows/flowcanvas/page.tsx:70-72 | the index of the first node with the id, or -1 exactly when no node has it |
| `FlowTree.ColumnTitle` | src/app/flows/flowcanvas/page.tsx:76 | for a found node: its priority (empty when absent), then ": ", then its label; for no node: ": " |
| `FlowTree.ColumnIdAt` | src/app/flows/flowcanvas/page.tsx:93 | the id of the column at the index when the index is in range and the id non-empty; nothing otherwise |
| `FlowTree.FindNode` | src/app/flows/flowcanvas/page.tsx:70-72 | the result, if any, is a node of the list with that id; none exactly when no node has that id |
| `FlowTree.ClickedColumns` | src/app/flows/flowcanvas/page.tsx:67-91 | a click keeps the number of columns, every column id and every node list |
| `FlowTree.NextId` | src/app/flows/flowcanvas/page.tsx:151-154 | a walk step, when there is one, is a non-empty id |
| `FlowTree.ChildIds` | src/app/flows/flowcanvas/page.tsx:157-161 | an id is listed iff some node with that id has the selection as parent |
| `FlowTree.RemoveId` | src/app/flows/flowcanvas/page.tsx:192 | a node survives iff it was present and its id differs from the deleted id |
| `FlowTree.OnPath` | src/app/flows/flowcanvas/page.tsx:178-182 | a node is kept iff it is in the column and its id or its parent id is on the path |
| `FlowTree.AppendToColumn` | src/app/flows/flowcanvas/page.tsx:132-138 | the node is appended at the end of every column with the target id; every other column, and every title and flag, is unchanged |
| `FlowTree.EditNodes` | src/app/flows/flowcanvas/page.tsx:115-119 | the nodes with the edited id get the new label and priority and keep id and parent; every other node is unchanged; same length |
| `FlowTree.EditInColumn` | src/app/flows/flowcanvas/page.tsx:110-123 | only columns with the target id have their nodes edited; ids, titles and flags unchanged |
| `FlowTree.RemoveFromColumn` | src/app/flows/flowcanvas/page.tsx:187-196 | only columns with the target id lose the nodes with the deleted id; ids, titles and flags unchanged |
| `FlowTree.DeactivateEmpty` | src/app/flows/flowcanvas/page.tsx:198-204 | an empty column past the first becomes inactive; every other flag and every id, title and node list is unchanged |
| `FlowTreeProperties.AncestorsShape` | src/app/flows/flowcanvas/page.tsx:149-155 | the walk starts at the selected id, each next entry is the previous entry's parent, and it ends at an id with no parent or no node |
| `FlowTreeProperties.FlattenMembers` | src/app/flows/flowcanvas/page.tsx:70-72 | a node is in the flattened list iff it is in some column |
| `FlowTreeProperties.FindNodeFirst` | src/app/flows/flowcanvas/page.tsx:70-72 | lookup finds a node iff some node has the id, and then it is the first such node in column order |
| `FlowTreeProperties.NextIdSpec` | src/app/flows/flowcanvas/page.tsx:151-154 | a walk step goes to the parent link of a node carrying the current id; an id no node carries ends the walk |
| `FlowTreeProperties.NextIdFirst` | src/app/flows/flowcanvas/page.tsx:151-154 | when a node has the id, the step is the first such node's parent link if it is non-empty, and the walk ends otherwise |
| `FlowTreeProperties.ClickActivation` | src/app/flows/flowcanvas/page.tsx:67-91 | after a click in column k: column k+1 active and titled after the clicked node; column k-1 active with its title kept; every column past k+1 inactive with its title kept; the others untouched |
| `FlowTreeProperties.WalkStep` | src/app/flows/flowcanvas/page.tsx:149-155 | one turn of the path loop: with a non-empty parent the path grows by the current id and the walk continues from the parent with a smaller bound; otherwise the current id is the last entry |
| `FlowTreeProperties.AncestorsFuel` | src/app/flows/flowcanvas/page.tsx:149-155 | the walk is the same whatever bound on its length is used to prove termination |
| `FlowTreeProperties.FlowPathIs` | src/app/flows/flowcanvas/page.tsx:145-166 | the flow path is the ancestor walk followed by the selection's children |
| `FlowTreeProperties.FlowPathShape` | src/app/flows/flowcanvas/page.tsx:145-166 | empty with no selection; otherwise the selection first, parent links up to the stop, then the selection's children |
| `FlowTreeProperties.ClosedSetNeverStops` | src/app/flows/flowcanvas/page.tsx:149-155 | a walk entering a set of ids closed under the parent step never stops |
| `FlowTreeProperties.CycleDiverges` | src/app/flows/flowcanvas/page.tsx:149-155 | a selection on a parent cycle makes the path loop diverge |
| `FlowTreeProperties.OnPathIsSubsequence` | src/app/flows/flowcanvas/page.tsx:175-183 | the display filter returns an order-preserving sublist of the column |
| `FlowTreeProperties.ClickIdempotent` | src/app/flows/flowcanvas/page.tsx:61-94 | a click keeps all nodes; repeating it gives the same columns and the same target column |
| `FlowTreeProperties.AppendAddsOne` | src/app/flows/flowcanvas/page.tsx:132-138 | adding to an existing column adds exactly that one node to the tree |
| `FlowTreeProperties.AddedNodeIsFound` | src/app/flows/flowcanvas/page.tsx:125-138 | with a fresh id the new node is the only one with it, lookup finds it, and the walk steps from it to the selection it was given as parent |
| `FlowTreeProperties.EditKeepsFlowPath` | src/app/flows/flowcanvas/page.tsx:109-123 | an edit keeps every id and parent link, so the walk still terminates and the flow path is unchanged |
| `FlowTreeProperties.RemoveIdIsSubsequence` | src/app/flows/flowcanvas/page.tsx:192 | deleting keeps the rest of the column in order |
| `FlowTreeProperties.DeleteNoCascade` | src/app/flows/flowcanvas/page.tsx:186-205 | only the named column loses nodes, exactly those with the id; every other node, its children included, is still in the tree |
| `FlowTreeProperties.InvariantTerminates` | src/app/flows/flowcanvas/page.tsx:145-166 | under the tree invariant the path loop terminates for every selection |
| `FlowTreeProperties.InitialInvariant` | src/app/flows/flowcanvas/page.tsx:23-29 | the initial columns satisfy the tree invariant |
| `FlowTreeProperties.NextIdOfNode` | src/app/flows/flowcanvas/page.tsx:151-154 | when nodes sharing an id share their parent link, the step from any node's id is that node's non-empty parent link, or the end |
| `FlowTreeProperties.CutStepsKeepStop` | src/app/flows/flowcanvas/page.tsx:149-155 | removing steps from the walk, never redirecting one, keeps a terminating walk terminating |
| `FlowTreeProperties.SubTreeKeepsInvariant` | src/app/flows/flowcanvas/page.tsx:186-205 | any tree whose nodes all come from a tree satisfying the invariant satisfies it too |
| `FlowTreeProperties.ClickKeepsInvariant` | src/app/flows/flowcanvas/page.tsx:61-94 | a click keeps the tree invariant |
| `FlowTreeProperties.EditKeepsInvariant` | src/app/flows/flowcanvas/page.tsx:109-123 | an edit keeps the tree invariant |
| `FlowTreeProperties.DeleteKeepsInvariant` | src/app/flows/flowcanvas/page.tsx:186-205 | a delete, with the sweep over empty columns, keeps the tree invariant |
| `FlowTreeProperties.FreshStepKeepsStop` | src/app/flows/flowcanvas/page.tsx:149-155 | a new step out of an id the walk never reaches keeps every terminating walk from another id terminating |
| `FlowTreeProperties.AddKeepsInvariant` | src/app/flows/flowcanvas/page.tsx:124-138 | appending a node whose id no node uses as id or parent, and that is not its own parent, keeps the tree invariant |
| `FlowCanvas.ColumnIdsDistinct` | src/app/flows/flowcanvas/page.tsx:23-29 | the five column ids are pairwise distinct |
| `FlowCanvas.ClickKeepsShape` | src/app/flows/flowcanvas/page.tsx:61-94 | a click keeps the five column ids and the set of nodes, and the next target is the id of column k+1, or none after the last column |
| `FlowCanvas.EditKeepsShape` | src/app/flows/flowcanvas/page.tsx:109-123 | an edit keeps the five column ids and every id and parent link, and keeps the tree invariant |
| `FlowCanvas.AddKeepsShape` | src/app/flows/flowcanvas/page.tsx:124-138 | an add to one of the five columns keeps the column ids and adds exactly the new node; with a fresh id it keeps the tree invariant |
| `FlowCanvas.Canvas.constructor` | src/app/flows/flowcanvas/page.tsx:23-38 | five placeholder columns with only the first active; target the first column; no selection, no edit, drawer closed; the tree invariant holds |
| `FlowCanvas.Canvas.NodeClick` | src/app/flows/flowcanvas/page.tsx:61-94 | selection is the clicked id; columns as `ClickedColumns`; all nodes kept; the target is column k+1's id, or none after the last column; the tree invariant is kept |
| `FlowCanvas.Canvas.NodeDoubleClick` | src/app/flows/flowcanvas/page.tsx:96-99 | the node becomes the edit target and the drawer opens; columns, target and selection unchanged |
| `FlowCanvas.Canvas.OpenRootAddDrawer` | src/app/flows/flowcanvas/page.tsx:257-261 | leaves edit mode, opens the drawer, clears the selection, keeps the target column |
| `FlowCanvas.Canvas.OpenAddDrawer` | src/app/flows/flowcanvas/page.tsx:271-274 | leaves edit mode and opens the drawer; nothing else changes |
| `FlowCanvas.Canvas.CloseDrawer` | src/app/flows/flowcanvas/page.tsx:285-287 | closes the drawer and keeps edit mode, the selection, the target and the columns |
| `FlowCanvas.Canvas.AddOrEditNode` | src/app/flows/flowcanvas/page.tsx:101-143 | no change without a target. Otherwise an edit changes label and priority of the matching nodes of the target column and keeps every id and parent link. An add appends one node with the given id, label and priority at the end of the target column, parented on the selection unless the target is the first column. A first-column target clears the selection; edit mode ends; the drawer closes; the tree invariant is kept by an edit, and by an add with a fresh id |
| `FlowCanvas.Canvas.EditInTarget` | src/app/flows/flowcanvas/page.tsx:104-142 | the target column's matching nodes are edited, ids and parent links kept; a first-column target clears the selection; edit mode ends; the drawer closes; the tree invariant is kept |
| `FlowCanvas.Canvas.AddToTarget` | src/app/flows/flowcanvas/page.tsx:104-142 | the new node is appended to the target column and is the only node added; a first-column target clears the selection; edit mode ends; the drawer closes; with a fresh id the tree invariant is kept |
| `FlowCanvas.Canvas.FlowPathNodes` | src/app/flows/flowcanvas/page.tsx:145-166 | the loop returns exactly the flow path: ancestor walk, then children |
| `FlowCanvas.Canvas.FilteredNodes` | src/app/flows/flowcanvas/page.tsx:168-184 | the whole first column whatever the selection; for other columns the nodes whose id or parent id is on the flow path, as an ordered sublist; nothing for an unknown column |
| `FlowCanvas.Canvas.NodeDelete` | src/app/flows/flowcanvas/page.tsx:186-205 | removes the nodes with the id from the named column only. Then every empty column past the first becomes inactive; other flags, ids, titles and the selection stay; every other node is kept; the tree invariant is kept |
| `FlowCanvasScenarios.RootNodeClicked` | src/app/flows/flowcanvas/page.tsx:61-143 | a node added to the first column and clicked: the second column is active and the target |
| `FlowCanvasScenarios.RootNodeAdded` | src/app/flows/flowcanvas/page.tsx:101-143 | a node added from the initial canvas lands in the first column; the first column stays the target; no selection |
| `FlowCanvasScenarios.RootClickColumns` | src/app/flows/flowcanvas/page.tsx:67-91 | a click on the only node of the first column keeps it there and activates the still empty second column |
| `FlowCanvasScenarios.ChildNodeAdded` | src/app/flows/flowcanvas/page.tsx:61-143 | add, click and add again: a root node in the first column and its child, parented on it, in the active second column |
| `FlowCanvasScenarios.DeleteParentKeepsChild` | src/app/flows/flowcanvas/page.tsx:186-205 | deleting a root node leaves its child in the second column, which stays active |
| `FlowCanvasScenarios.RootButtonAddsToTarget` | src/app/flows/flowcanvas/page.tsx:255-274 | after a click in the first column, the first column's add button puts a parentless node into the second column, where the filter hides it |
| `FlowCanvasScenarios.RootButtonAfterClick` | src/app/flows/flowcanvas/page.tsx:255-261 | after a click in the first column, the first column's add button clears the selection and the new parentless node goes to the second column |
| `Forms.WithoutId` | src/components/ui/Forms.tsx:56-60 | a field survives iff it was present and does not carry the removed id |
| `Forms.DynamicFieldsAfter` | src/components/ui/Forms.tsx:44-77 | checking terminate or validate appends its URL field at the end; unchecking removes every copy of it; any other name leaves the fields unchanged |
| `Forms.RulesIndependent` | src/components/ui/Forms.tsx:44-77 | the terminate rule never changes the validate URL fields, and the validate rule never changes the terminate URL fields |
| `Forms.UncheckRemovesAll` | src/components/ui/Forms.tsx:56-60 | unchecking removes an appended copy as well and keeps the remaining fields in order |
| `Forms.CheckThenUncheck` | src/components/ui/Forms.tsx:45-60 | checking and then unchecking terminate leaves the extra fields without any terminate URL field |
| `Forms.Form.constructor` | src/components/ui/Forms.tsx:29-31 | empty form state, no extra fields |
| `Forms.Form.HandleChange` | src/components/ui/Forms.tsx:33-78 | the changed key holds `checked` for a checkbox and the value otherwise, other keys unchanged. Checking terminate/validate appends its URL field at the end; unchecking removes all of them, keeping the rest in order; other names leave the extra fields unchanged |
| `Forms.Form.AllFields` | src/components/ui/Forms.tsx:86 | the static fields in order, then the extra fields in order |
| `Forms.Form.HandleSubmit` | src/components/ui/Forms.tsx:80-84 | hands over the form state unchanged |
| `MobileSimulator.Respond` | src/components/MobileSimulator.tsx:32-42 | Menu A exactly for "1", Menu B exactly for "2", the invalid-option text for anything else; never the welcome text |
| `MobileSimulator.Simulator.constructor` | src/components/MobileSimulator.tsx:4-10 | welcome text, empty input, hidden panel, empty phone and location |
| `MobileSimulator.Simulator.TogglePanel` | src/components/MobileSimulator.tsx:13-15 | flips the panel; nothing else changes |
| `MobileSimulator.Simulator.ResetFlow` | src/components/MobileSimulator.tsx:18-23 | welcome text and empty input; panel, phone and location kept |
| `MobileSimulator.Simulator.InputChange` | src/components/MobileSimulator.tsx:26-28 | stores the typed text verbatim; nothing else changes |
| `MobileSimulator.Simulator.SendClick` | src/components/MobileSimulator.tsx:31-44 | the screen becomes the response to the typed input, which is cleared |
| `MobileSimulator.Simulator.TelNumberChange` | src/components/MobileSimulator.tsx:96 | stores the phone number; nothing else changes |
| `MobileSimulator.Simulator.LongLatChange` | src/components/MobileSimulator.tsx:108 | stores the location; nothing else changes |
| `MobileSimulator.ToggleTwiceRestores` | src/components/MobileSimulator.tsx:13-15 | two toggles restore the panel |
| `MobileSimulator.SendTwiceIsInvalid` | src/components/MobileSimulator.tsx:31-44 | a second send without typing shows the invalid-option text |
| `FlowsPage.InitialFlowsShape` | src/app/flows/page.tsx:15-54 | five seeded flows with ids 1 to 5, unique, split 2/1/1/1 over Active, Draft, Archived, Deleted |
| `FlowsPage.SaveKeepsIdsUnique` | src/app/flows/page.tsx:123-135 | a save adds exactly the new flow to the page; with a fresh id all ids stay unique |
| `FlowsPage.NewFlow` | src/app/flows/page.tsx:124-130 | the new flow has the given id, and its name, description and start date are the form's values exactly when the form has them |
| `FlowsPage.SavedPositions` | src/app/flows/page.tsx:132-135 | in the list of all flows the saved one sits right after the active ones; flows before keep their place and flows after move one along; exactly that one flow is added |
| `FlowsPage.Page.constructor` | src/app/flows/page.tsx:12-63 | status Active, the seeded flows, drawer closed, medium size on the right |
| `FlowsPage.Page.SelectStatus` | src/app/flows/page.tsx:156 | the chosen status is shown; flows and drawer unchanged |
| `FlowsPage.Page.DrawerToggle` | src/app/flows/page.tsx:115-121 | stores size and position and opens the drawer |
| `FlowsPage.Page.Save` | src/app/flows/page.tsx:123-138 | one new flow appended after the active ones, with name, description and start date from the form and the given id; other buckets unchanged; drawer closed |
| `FlowsPage.Page.DrawerClose` | src/app/flows/page.tsx:149-151 | closes the drawer; nothing else changes |
| `Auth.LocalStorage.GetItem` | src/lib/auth.ts:5 | the stored value exactly when the key is present |
| `Auth.LocalStorage.SetItem` | src/lib/auth.ts:11 | the key now holds the value; every other key keeps its value |
| `Auth.IsAuthenticated` | src/lib/auth.ts:3-6 | true iff the token key is present with a non-empty value |
| `Auth.Login` | src/lib/auth.ts:8-15 | succeeds iff the user is admin and the password is password. On success the token key holds the dummy token and the user is authenticated; on failure the store is unchanged |

## Left out

- JSX rendering and styling: node highlighting, the drawers' CSS and the page headings (the
  canvas's `flowId` prop is only shown in a heading). These are presentation, not state.
- The `initialData` prop that the canvas passes to its form (page.tsx:297-301) is not a prop
  the form declares and the form never reads it, so it has no effect, and it is not modelled. The form's `onClose` callback is modelled
  only as the flows page's `DrawerClose`.
- `Date.now()`: node and flow ids are parameters. Nothing in the model or the code rules out
  collisions; lemmas that need fresh ids say so in their precondition.
- The flows page's `useEffect` load and store of `flowsData` in `localStorage`, with JSON
  (de)serialisation. This is browser storage I/O.
- React's batching and scheduling of state updates. Each handler is one step whose updates
  apply in order.
- `FlowCanvas.Canvas.FlowPathNodes`: requires termination of the walk, because the code
  loops forever on a parent cycle. The tree invariant rules cycles out while clock ids are
  fresh. With colliding ids one can arise: an added node that takes the selection's id, with
  the selection as parent, becomes a self-loop once the original node is deleted.
- `FlowCanvas.Canvas.AddOrEditNode`: keeps the tree invariant for an add only when the clock
  id is fresh (`FreshNodeId`), since with a colliding id the code can create a cycle.
- The dashboard page, with its charts, map, `fetch` calls and alert dialogs. These are
  network I/O and rendering.
- The map location parser, the random colour helper, the auth context and hook, the API
  wrapper and the greeting route. These are floating point, randomness and framework plumbing.
