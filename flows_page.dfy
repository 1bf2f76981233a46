/**
  The flows list page (src/app/flows/page.tsx): flows sorted into four status buckets, a
  selected bucket, and a drawer holding the create form.
*/
module FlowsPage {
  import opened Wrappers
  import opened Forms

  datatype Status = Active | Draft | Archived | Deleted

  /** A flow card. Saved fields hold whatever the form submitted under that key, if anything. */
  datatype Flow = Flow(id: int, name: Option<FieldValue>, description: Option<FieldValue>, startDate: Option<FieldValue>)

  datatype FlowsData = FlowsData(active: seq<Flow>, draft: seq<Flow>, archived: seq<Flow>, deleted: seq<Flow>)

  datatype DrawerSize = Small | Medium | Large
  datatype DrawerPosition = Left | Right | Top | Bottom
  datatype DrawerConfig = DrawerConfig(size: DrawerSize, position: DrawerPosition)

  function SeedFlow(id: int, name: string, description: string, startDate: string): Flow
  {
    Flow(id, Some(Text(name)), Some(Text(description)), Some(Text(startDate)))
  }

  /** The five flows the page starts with. */
  const InitialFlows: FlowsData := FlowsData(
    [SeedFlow(1, "Flow 1", "Description 1", "2024-01-01"), SeedFlow(2, "Flow 2", "Description 2", "2024-01-02")],
    [SeedFlow(3, "Flow 3", "Description 3", "2024-02-01")],
    [SeedFlow(4, "Flow 4", "Description 4", "2024-03-01")],
    [SeedFlow(5, "Flow 5", "Description 5", "2024-04-01")])

  /** Every flow of every bucket, bucket by bucket. */
  function AllFlows(d: FlowsData): seq<Flow>
  {
    d.active + d.draft + d.archived + d.deleted
  }

  function FlowIds(fs: seq<Flow>): (ids: seq<int>)
    ensures |ids| == |fs| && forall i :: 0 <= i < |fs| ==> ids[i] == fs[i].id
  {
    if fs == [] then [] else [fs[0].id] + FlowIds(fs[1..])
  }

  /** Property access on the submitted form data: `undefined` for a missing key. */
  function Lookup(data: map<string, FieldValue>, key: string): Option<FieldValue>
  {
    if key in data then Some(data[key]) else None
  }

  /** The flow built from the submitted data and a clock-supplied id. */
  function NewFlow(data: map<string, FieldValue>, id: int): (f: Flow)
    ensures f.id == id
    ensures f.name.Some? <==> "name" in data
    ensures f.name.Some? ==> f.name.value == data["name"]
    ensures f.description.Some? <==> "description" in data
    ensures f.description.Some? ==> f.description.value == data["description"]
    ensures f.startDate.Some? <==> "startDate" in data
    ensures f.startDate.Some? ==> f.startDate.value == data["startDate"]
  {
    Flow(id, Lookup(data, "name"), Lookup(data, "description"), Lookup(data, "startDate"))
  }

  ghost predicate UniqueIds(fs: seq<Flow>)
  {
    forall i, j :: 0 <= i < j < |fs| ==> fs[i].id != fs[j].id
  }

  /** The seeded flows have ids 1 to 5, two of them active and one in each other bucket. */
  lemma InitialFlowsShape()
    ensures FlowIds(AllFlows(InitialFlows)) == [1, 2, 3, 4, 5]
    ensures |InitialFlows.active| == 2 && |InitialFlows.draft| == 1
    ensures |InitialFlows.archived| == 1 && |InitialFlows.deleted| == 1
    ensures UniqueIds(AllFlows(InitialFlows))
  {
    var all := AllFlows(InitialFlows);
    assert |all| == 5;
    assert forall i :: 0 <= i < 5 ==> all[i].id == i + 1;
  }

  /** Where a saved flow sits: right after the active flows, everything after it shifted by one. */
  lemma SavedPositions(d: FlowsData, f: Flow)
    ensures var before, saved, p := AllFlows(d), AllFlows(d.(active := d.active + [f])), |d.active|;
      && |saved| == |before| + 1 && saved[p] == f
      && (forall i :: 0 <= i < p ==> saved[i] == before[i])
      && (forall i :: p < i < |saved| ==> saved[i] == before[i - 1])
      && multiset(saved) == multiset(before) + multiset{f}
  {
    var rest := d.draft + d.archived + d.deleted;
    assert AllFlows(d.(active := d.active + [f])) == d.active + [f] + rest;
    assert AllFlows(d) == d.active + rest;
    InsertAt(d.active, f, rest);
  }

  /** Inserting `x` between `a` and `b`: the positions before it stay, the ones after shift by one. */
  lemma InsertAt<T>(a: seq<T>, x: T, b: seq<T>)
    ensures var before, after, p := a + b, a + [x] + b, |a|;
      && |after| == |before| + 1 && after[p] == x
      && (forall i :: 0 <= i < p ==> after[i] == before[i])
      && (forall i :: p < i < |after| ==> after[i] == before[i - 1])
      && multiset(after) == multiset(before) + multiset{x}
  {
    assert a + [x] + b == a + ([x] + b);
    assert multiset(a + [x] + b) == multiset(a) + multiset{x} + multiset(b);
  }

  /**
    Saving a flow adds exactly that flow to the whole page; with an id not used before the
    ids stay unique.
  */
  lemma SaveKeepsIdsUnique(d: FlowsData, f: Flow)
    requires UniqueIds(AllFlows(d))
    requires forall g :: g in AllFlows(d) ==> g.id != f.id
    ensures var saved := d.(active := d.active + [f]);
      && multiset(AllFlows(saved)) == multiset(AllFlows(d)) + multiset{f}
      && UniqueIds(AllFlows(saved))
  {
    var before := AllFlows(d);
    var saved := AllFlows(d.(active := d.active + [f]));
    var p := |d.active|;
    SavedPositions(d, f);
    forall i, j | 0 <= i < j < |saved| ensures saved[i].id != saved[j].id {
      if i == p {
        assert saved[j] == before[j - 1];
      } else if j == p {
        assert saved[i] == before[i];
      } else {
        var i', j' := if i < p then i else i - 1, if j < p then j else j - 1;
        assert saved[i] == before[i'] && saved[j] == before[j'] && i' < j';
      }
    }
  }

  class Page {
    var selectedStatus: Status
    var flowsData: FlowsData
    var isDrawerOpen: bool
    var drawerConfig: DrawerConfig

    constructor ()
      ensures selectedStatus == Active && flowsData == InitialFlows
      ensures !isDrawerOpen && drawerConfig == DrawerConfig(Medium, Right)
    {
      selectedStatus := Active;
      flowsData := InitialFlows;
      isDrawerOpen := false;
      drawerConfig := DrawerConfig(Medium, Right);
    }

    /** The status menu selects which bucket is shown. */
    method SelectStatus(status: Status)
      modifies this
      ensures selectedStatus == status
      ensures flowsData == old(flowsData) && isDrawerOpen == old(isDrawerOpen) && drawerConfig == old(drawerConfig)
    {
      selectedStatus := status;
    }

    /** Opens the drawer with the given size and position. */
    method DrawerToggle(size: DrawerSize, position: DrawerPosition)
      modifies this
      ensures drawerConfig == DrawerConfig(size, position) && isDrawerOpen
      ensures flowsData == old(flowsData) && selectedStatus == old(selectedStatus)
    {
      drawerConfig := DrawerConfig(size, position);
      isDrawerOpen := true;
    }

    /**
      Saves the submitted form as a new active flow with id `newFlowId`, appended after the
      existing active flows; the other buckets stay as they are; the drawer closes.
    */
    method Save(data: map<string, FieldValue>, newFlowId: int)
      modifies this
      ensures flowsData.active == old(flowsData.active) + [NewFlow(data, newFlowId)]
      ensures flowsData.draft == old(flowsData.draft) && flowsData.archived == old(flowsData.archived)
      ensures flowsData.deleted == old(flowsData.deleted)
      ensures !isDrawerOpen && selectedStatus == old(selectedStatus) && drawerConfig == old(drawerConfig)
    {
      var newFlow := NewFlow(data, newFlowId);
      flowsData := flowsData.(active := flowsData.active + [newFlow]);
      isDrawerOpen := false;
    }

    /** Closes the drawer. */
    method DrawerClose()
      modifies this
      ensures !isDrawerOpen
      ensures flowsData == old(flowsData) && selectedStatus == old(selectedStatus) && drawerConfig == old(drawerConfig)
    {
      isDrawerOpen := false;
    }
  }
}
