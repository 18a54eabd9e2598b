// The selection math of the link dialog (studio/src/lib/integrations.ts:330-382).
module LinkPlan {
  import opened Wrappers

  datatype Project = Project(id: string, name: string, org: Option<string>, destination: Option<string>)

  datatype Connection = Connection(name: string, orgs: seq<string>)

  /** The orgs of the view and its projects. */
  datatype View = View(orgs: seq<string>, projects: seq<Project>)

  datatype Pill = Already | Elsewhere | NoDestination

  datatype Row = Row(project: Project, locked: bool, checked: bool, pill: Pill, switching: bool)

  datatype TriState = All | Partial | Nothing

  datatype Group = Group(org: string, count: nat, rows: seq<Row>, free: seq<string>, state: TriState)

  datatype Plan = Plan(groups: seq<Group>, notAllowed: seq<string>, newIds: seq<string>, alreadyCount: nat, switching: seq<string>)

  /** What the dialog shows of a project: only one linked elsewhere switches, and one linked here cannot be unchecked. */
  function LinkRow(project: Project, connection: string, checked: set<string>): Row {
    var locked := project.destination == Some(connection);
    var isChecked := locked || project.id in checked;
    var pill := if locked then Already else if project.destination.GetOr("") != "" then Elsewhere else NoDestination;
    Row(project, locked, isChecked, pill, isChecked && pill == Elsewhere)
  }

  /** The rows of the projects of one org, in view order. */
  function RowsOf(projects: seq<Project>, org: string, connection: string, checked: set<string>): seq<Row> {
    if projects == [] then []
    else
      var rest := RowsOf(projects[1..], org, connection, checked);
      if projects[0].org == Some(org) then [LinkRow(projects[0], connection, checked)] + rest else rest
  }

  function FreeIds(rows: seq<Row>): seq<string> {
    if rows == [] then []
    else if rows[0].locked then FreeIds(rows[1..]) else [rows[0].project.id] + FreeIds(rows[1..])
  }

  predicate EveryFreeChecked(rows: seq<Row>) {
    rows == [] || ((rows[0].locked || rows[0].checked) && EveryFreeChecked(rows[1..]))
  }

  predicate SomeFreeChecked(rows: seq<Row>) {
    rows != [] && ((!rows[0].locked && rows[0].checked) || SomeFreeChecked(rows[1..]))
  }

  /** The state of a group's whole-org checkbox. */
  function TriStateOf(rows: seq<Row>): TriState {
    if EveryFreeChecked(rows) then All else if SomeFreeChecked(rows) then Partial else Nothing
  }

  function GroupOf(view: View, org: string, connection: string, checked: set<string>): Group {
    var rows := RowsOf(view.projects, org, connection, checked);
    Group(org, |rows|, rows, FreeIds(rows), TriStateOf(rows))
  }

  function GroupsOf(view: View, orgs: seq<string>, connection: string, checked: set<string>): seq<Group> {
    if orgs == [] then [] else [GroupOf(view, orgs[0], connection, checked)] + GroupsOf(view, orgs[1..], connection, checked)
  }

  function AllRows(groups: seq<Group>): seq<Row> {
    if groups == [] then [] else groups[0].rows + AllRows(groups[1..])
  }

  function FreshIds(rows: seq<Row>): seq<string> {
    if rows == [] then []
    else if rows[0].checked && !rows[0].locked then [rows[0].project.id] + FreshIds(rows[1..]) else FreshIds(rows[1..])
  }

  function LockedCount(rows: seq<Row>): nat {
    if rows == [] then 0 else LockedCount(rows[1..]) + if rows[0].locked then 1 else 0
  }

  function SwitchingNames(rows: seq<Row>): seq<string> {
    if rows == [] then []
    else if rows[0].checked && !rows[0].locked && rows[0].switching then [rows[0].project.name] + SwitchingNames(rows[1..])
    else SwitchingNames(rows[1..])
  }

  /** The orgs, in the view's order, that the connection is not allowed for yet. */
  function RemainingOrgs(orgs: seq<string>, connection: Connection): seq<string> {
    if orgs == [] then []
    else if orgs[0] in connection.orgs then RemainingOrgs(orgs[1..], connection)
    else [orgs[0]] + RemainingOrgs(orgs[1..], connection)
  }

  predicate HasProjects(projects: seq<Project>, org: string) {
    projects != [] && (projects[0].org == Some(org) || HasProjects(projects[1..], org))
  }

  function WithProjects(projects: seq<Project>, orgs: seq<string>): seq<string> {
    if orgs == [] then []
    else if HasProjects(projects, orgs[0]) then [orgs[0]] + WithProjects(projects, orgs[1..])
    else WithProjects(projects, orgs[1..])
  }

  /** All the dialog shows and would do for one selection. */
  function PlanOf(view: View, connection: Connection, checked: set<string>): Plan {
    var groups := GroupsOf(view, connection.orgs, connection.name, checked);
    var rows := AllRows(groups);
    Plan(groups, WithProjects(view.projects, RemainingOrgs(view.orgs, connection)), FreshIds(rows), LockedCount(rows), SwitchingNames(rows))
  }

  function SetOf(ids: seq<string>): set<string> {
    set id | id in ids
  }

  /** The selection with a group's free ids removed when all of them are in it, and added otherwise. */
  ghost function Toggled(checked: set<string>, group: Group): set<string> {
    if group.state == All then checked - SetOf(group.free) else checked + SetOf(group.free)
  }

  method ToggledOrg(checked: set<string>, group: Group) returns (next: set<string>)
    ensures next == Toggled(checked, group)
  {
    next := checked;
    for k := 0 to |group.free|
      invariant next == if group.state == All then checked - SetOf(group.free[..k]) else checked + SetOf(group.free[..k])
    {
      assert group.free[..k + 1] == group.free[..k] + [group.free[k]];
      if group.state == All {
        next := next - {group.free[k]};
      } else {
        next := next + {group.free[k]};
      }
    }
    assert group.free[..|group.free|] == group.free;
  }

  /** The selection with one id moved in or out. */
  method ToggledProject(checked: set<string>, id: string) returns (next: set<string>)
    ensures forall other :: other in next <==> (if other == id then other !in checked else other in checked)
  {
    next := checked;
    if id in next {
      next := next - {id};
    } else {
      next := next + {id};
    }
  }

  // ---- the newly checked ids ----

  predicate NoDuplicates(s: seq<string>) {
    s == [] || (s[0] !in s[1..] && NoDuplicates(s[1..]))
  }

  function IdsOf(projects: seq<Project>): seq<string> {
    if projects == [] then [] else [projects[0].id] + IdsOf(projects[1..])
  }

  predicate UniqueIds(projects: seq<Project>) {
    NoDuplicates(IdsOf(projects))
  }

  /** The project with an id, the first one when several share it. */
  function ProjectWith(projects: seq<Project>, id: string): Option<Project> {
    if projects == [] then None else if projects[0].id == id then Some(projects[0]) else ProjectWith(projects[1..], id)
  }

  /** A checked project not on the connection yet. */
  predicate IsFresh(project: Project, connection: string, checked: set<string>) {
    project.id in checked && project.destination != Some(connection)
  }

  lemma {:induction false} KnownIds(projects: seq<Project>, id: string)
    ensures id in IdsOf(projects) <==> ProjectWith(projects, id).Some?
  {
    if projects != [] {
      KnownIds(projects[1..], id);
    }
  }

  lemma {:induction false} OneProjectPerId(projects: seq<Project>, project: Project)
    requires UniqueIds(projects) && project in projects
    ensures ProjectWith(projects, project.id) == Some(project)
  {
    assert IdsOf(projects)[1..] == IdsOf(projects[1..]);
    if project != projects[0] {
      assert project in projects[1..];
      OneProjectPerId(projects[1..], project);
      KnownIds(projects[1..], project.id);
    }
  }

  /** The fresh ids of one org are those of its fresh projects. */
  lemma {:induction false} FreshIdsOfOrg(projects: seq<Project>, org: string, connection: string, checked: set<string>, id: string)
    requires UniqueIds(projects)
    ensures id in FreshIds(RowsOf(projects, org, connection, checked)) <==>
            (var found := ProjectWith(projects, id);
             found.Some? && found.value.org == Some(org) && IsFresh(found.value, connection, checked))
  {
    if projects != [] {
      assert IdsOf(projects)[1..] == IdsOf(projects[1..]);
      FreshIdsOfOrg(projects[1..], org, connection, checked, id);
      KnownIds(projects[1..], id);
      var row, rest := LinkRow(projects[0], connection, checked), RowsOf(projects[1..], org, connection, checked);
      assert ([row] + rest)[1..] == rest;
    }
  }

  lemma {:induction false} FreshIdsTogether(a: seq<Row>, b: seq<Row>)
    ensures FreshIds(a + b) == FreshIds(a) + FreshIds(b)
    ensures LockedCount(a + b) == LockedCount(a) + LockedCount(b)
    decreases |a|
  {
    if a == [] {
      assert a + b == b;
    } else {
      FreshIdsTogether(a[1..], b);
      assert (a + b)[1..] == a[1..] + b;
    }
  }

  function PlanRows(view: View, orgs: seq<string>, connection: string, checked: set<string>): seq<Row> {
    AllRows(GroupsOf(view, orgs, connection, checked))
  }

  lemma {:induction false} PlanRowsByOrg(view: View, orgs: seq<string>, connection: string, checked: set<string>)
    requires orgs != []
    ensures PlanRows(view, orgs, connection, checked)
         == RowsOf(view.projects, orgs[0], connection, checked) + PlanRows(view, orgs[1..], connection, checked)
  {
    var first, rest := GroupOf(view, orgs[0], connection, checked), GroupsOf(view, orgs[1..], connection, checked);
    assert ([first] + rest)[1..] == rest;
  }

  /** The newly checked ids are those of the checked, unlinked projects of the allowed orgs. */
  lemma {:induction false} NewIdsAreFresh(view: View, orgs: seq<string>, connection: string, checked: set<string>, id: string)
    requires UniqueIds(view.projects)
    ensures id in FreshIds(PlanRows(view, orgs, connection, checked)) <==>
            (var found := ProjectWith(view.projects, id);
             found.Some? && found.value.org.Some? && found.value.org.value in orgs && IsFresh(found.value, connection, checked))
    decreases |orgs|
  {
    if orgs != [] {
      var first := RowsOf(view.projects, orgs[0], connection, checked);
      PlanRowsByOrg(view, orgs, connection, checked);
      FreshIdsTogether(first, PlanRows(view, orgs[1..], connection, checked));
      FreshIdsOfOrg(view.projects, orgs[0], connection, checked, id);
      NewIdsAreFresh(view, orgs[1..], connection, checked, id);
    }
  }

  lemma {:induction false} NoDuplicatesTogether(a: seq<string>, b: seq<string>)
    requires NoDuplicates(a) && NoDuplicates(b) && forall id :: id in a ==> id !in b
    ensures NoDuplicates(a + b)
    decreases |a|
  {
    if a == [] {
      assert a + b == b;
    } else {
      NoDuplicatesTogether(a[1..], b);
      assert (a + b)[1..] == a[1..] + b;
    }
  }

  lemma {:induction false} NoFreshIdTwiceInOrg(projects: seq<Project>, org: string, connection: string, checked: set<string>)
    requires UniqueIds(projects)
    ensures NoDuplicates(FreshIds(RowsOf(projects, org, connection, checked)))
  {
    if projects != [] {
      assert IdsOf(projects)[1..] == IdsOf(projects[1..]);
      NoFreshIdTwiceInOrg(projects[1..], org, connection, checked);
      var row, rest := LinkRow(projects[0], connection, checked), RowsOf(projects[1..], org, connection, checked);
      assert ([row] + rest)[1..] == rest;
      FreshIdsOfOrg(projects[1..], org, connection, checked, projects[0].id);
      KnownIds(projects[1..], projects[0].id);
      var ids := FreshIds(rest);
      assert ([projects[0].id] + ids)[1..] == ids;
    }
  }

  lemma {:induction false} NoFreshIdTwice(view: View, orgs: seq<string>, connection: string, checked: set<string>)
    requires UniqueIds(view.projects) && NoDuplicates(orgs)
    ensures NoDuplicates(FreshIds(PlanRows(view, orgs, connection, checked)))
    decreases |orgs|
  {
    if orgs != [] {
      var first, rest := RowsOf(view.projects, orgs[0], connection, checked), PlanRows(view, orgs[1..], connection, checked);
      NoFreshIdTwice(view, orgs[1..], connection, checked);
      NoFreshIdTwiceInOrg(view.projects, orgs[0], connection, checked);
      PlanRowsByOrg(view, orgs, connection, checked);
      FreshIdsTogether(first, rest);
      forall id | id in FreshIds(first)
        ensures id !in FreshIds(rest)
      {
        FreshIdsOfOrg(view.projects, orgs[0], connection, checked, id);
        NewIdsAreFresh(view, orgs[1..], connection, checked, id);
      }
      NoDuplicatesTogether(FreshIds(first), FreshIds(rest));
    }
  }

  /** The ids a plan links: each once, and exactly the checked, unlinked projects of the allowed orgs. */
  lemma {:induction false} PlanLinksExactlyTheFresh(view: View, connection: Connection, checked: set<string>)
    requires UniqueIds(view.projects) && NoDuplicates(connection.orgs)
    ensures NoDuplicates(PlanOf(view, connection, checked).newIds)
    ensures forall id :: id in PlanOf(view, connection, checked).newIds <==>
              (var found := ProjectWith(view.projects, id);
               && found.Some? && found.value.org.Some? && found.value.org.value in connection.orgs
               && IsFresh(found.value, connection.name, checked))
  {
    NoFreshIdTwice(view, connection.orgs, connection.name, checked);
    forall id
      ensures id in PlanOf(view, connection, checked).newIds <==>
              (var found := ProjectWith(view.projects, id);
               && found.Some? && found.value.org.Some? && found.value.org.value in connection.orgs
               && IsFresh(found.value, connection.name, checked))
    {
      NewIdsAreFresh(view, connection.orgs, connection.name, checked, id);
    }
  }

  /** A fresh project that leaves another destination. */
  predicate Switches(project: Project, connection: string, checked: set<string>) {
    IsFresh(project, connection, checked) && project.destination.GetOr("") != ""
  }

  /** The names warned about in one org are those of its fresh projects that leave another destination. */
  lemma {:induction false} SwitchingInOrg(projects: seq<Project>, org: string, connection: string, checked: set<string>, name: string)
    ensures name in SwitchingNames(RowsOf(projects, org, connection, checked)) <==>
            exists p :: p in projects && p.org == Some(org) && Switches(p, connection, checked) && p.name == name
  {
    if projects != [] {
      SwitchingInOrg(projects[1..], org, connection, checked, name);
      assert projects == [projects[0]] + projects[1..];
      var row, rest := LinkRow(projects[0], connection, checked), RowsOf(projects[1..], org, connection, checked);
      assert ([row] + rest)[1..] == rest;
    }
  }

  lemma {:induction false} SwitchingTogether(a: seq<Row>, b: seq<Row>)
    ensures SwitchingNames(a + b) == SwitchingNames(a) + SwitchingNames(b)
    decreases |a|
  {
    if a == [] {
      assert a + b == b;
    } else {
      SwitchingTogether(a[1..], b);
      assert (a + b)[1..] == a[1..] + b;
    }
  }

  /** The names a plan warns about are those of the fresh projects of the allowed orgs that leave another destination. */
  lemma {:induction false} SwitchingNamesAreFresh(view: View, orgs: seq<string>, connection: string, checked: set<string>, name: string)
    ensures name in SwitchingNames(PlanRows(view, orgs, connection, checked)) <==>
            exists p :: p in view.projects && p.org.Some? && p.org.value in orgs && Switches(p, connection, checked) && p.name == name
    decreases |orgs|
  {
    if orgs != [] {
      var first := RowsOf(view.projects, orgs[0], connection, checked);
      PlanRowsByOrg(view, orgs, connection, checked);
      SwitchingTogether(first, PlanRows(view, orgs[1..], connection, checked));
      SwitchingInOrg(view.projects, orgs[0], connection, checked, name);
      SwitchingNamesAreFresh(view, orgs[1..], connection, checked, name);
      assert orgs == [orgs[0]] + orgs[1..];
    }
  }

  /** Every row of a group is locked or free. */
  lemma {:induction false} RowsAreLockedOrFree(rows: seq<Row>)
    ensures |rows| == LockedCount(rows) + |FreeIds(rows)|
  {
    if rows != [] {
      RowsAreLockedOrFree(rows[1..]);
    }
  }

  // ---- toggling an org ----

  lemma {:induction false} FreeIdsOfOrg(projects: seq<Project>, org: string, connection: string, checked: set<string>, id: string)
    requires UniqueIds(projects)
    ensures id in FreeIds(RowsOf(projects, org, connection, checked)) <==>
            (var found := ProjectWith(projects, id);
             found.Some? && found.value.org == Some(org) && found.value.destination != Some(connection))
  {
    if projects != [] {
      assert IdsOf(projects)[1..] == IdsOf(projects[1..]);
      FreeIdsOfOrg(projects[1..], org, connection, checked, id);
      KnownIds(projects[1..], id);
      var row, rest := LinkRow(projects[0], connection, checked), RowsOf(projects[1..], org, connection, checked);
      assert ([row] + rest)[1..] == rest;
    }
  }

  /** Selections that agree on the projects of an org give it the same rows. */
  lemma {:induction false} SameSelectionSameRows(projects: seq<Project>, org: string, connection: string, s: set<string>, t: set<string>)
    requires forall p :: p in projects && p.org == Some(org) ==> (p.id in s <==> p.id in t)
    ensures RowsOf(projects, org, connection, s) == RowsOf(projects, org, connection, t)
  {
    if projects != [] {
      SameSelectionSameRows(projects[1..], org, connection, s, t);
    }
  }

  lemma {:induction false} FreeIdsAreFixed(projects: seq<Project>, org: string, connection: string, s: set<string>, t: set<string>)
    ensures FreeIds(RowsOf(projects, org, connection, s)) == FreeIds(RowsOf(projects, org, connection, t))
  {
    if projects != [] {
      FreeIdsAreFixed(projects[1..], org, connection, s, t);
      var rest, more := RowsOf(projects[1..], org, connection, s), RowsOf(projects[1..], org, connection, t);
      assert ([LinkRow(projects[0], connection, s)] + rest)[1..] == rest;
      assert ([LinkRow(projects[0], connection, t)] + more)[1..] == more;
    }
  }

  /** The state of an org follows from which of its free ids are selected. */
  lemma {:induction false} StateFromFreeIds(projects: seq<Project>, org: string, connection: string, s: set<string>)
    ensures var rows := RowsOf(projects, org, connection, s);
            && (EveryFreeChecked(rows) <==> forall id :: id in FreeIds(rows) ==> id in s)
            && (SomeFreeChecked(rows) <==> exists id :: id in FreeIds(rows) && id in s)
  {
    if projects != [] {
      StateFromFreeIds(projects[1..], org, connection, s);
      var row, rest := LinkRow(projects[0], connection, s), RowsOf(projects[1..], org, connection, s);
      assert ([row] + rest)[1..] == rest;
    }
  }

  /** Toggling an org selects all its free projects, or none when all were; with no free project it stays as it was. */
  lemma {:induction false} ToggleMovesState(view: View, org: string, connection: string, checked: set<string>)
    ensures var group := GroupOf(view, org, connection, checked);
            var after := GroupOf(view, org, connection, Toggled(checked, group));
            && after.free == group.free
            && after.state == if group.state == All && group.free != [] then Nothing else All
  {
    var group := GroupOf(view, org, connection, checked);
    var next := Toggled(checked, group);
    FreeIdsAreFixed(view.projects, org, connection, checked, next);
    StateFromFreeIds(view.projects, org, connection, next);
    if group.state == All && group.free != [] {
      assert group.free[0] in group.free;
    }
  }

  /** Toggling one org leaves every other org's group exactly as it was. */
  lemma {:induction false} ToggleLeavesOthers(view: View, org: string, other: string, connection: string, checked: set<string>)
    requires UniqueIds(view.projects) && org != other
    ensures GroupOf(view, other, connection, Toggled(checked, GroupOf(view, org, connection, checked)))
         == GroupOf(view, other, connection, checked)
  {
    var group := GroupOf(view, org, connection, checked);
    forall p | p in view.projects && p.org == Some(other)
      ensures p.id !in group.free
    {
      OneProjectPerId(view.projects, p);
      FreeIdsOfOrg(view.projects, org, connection, checked, p.id);
    }
    SameSelectionSameRows(view.projects, other, connection, Toggled(checked, group), checked);
  }

  /** Toggling an org twice gives the selection back exactly when it was not partly selected. */
  lemma {:induction false} ToggleTwice(view: View, org: string, connection: string, checked: set<string>)
    ensures var group := GroupOf(view, org, connection, checked);
            var next := Toggled(checked, group);
            Toggled(next, GroupOf(view, org, connection, next)) == checked <==> group.state != Partial
  {
    var group := GroupOf(view, org, connection, checked);
    var next := Toggled(checked, group);
    ToggleMovesState(view, org, connection, checked);
    StateFromFreeIds(view.projects, org, connection, checked);
    if group.state == Partial {
      var id :| id in group.free && id in checked;
      assert id !in Toggled(next, GroupOf(view, org, connection, next));
    }
  }

  // ---- linking ----

  /** The projects once the connection serves those with the ids. */
  function Linked(projects: seq<Project>, ids: seq<string>, connection: string): seq<Project> {
    if projects == [] then []
    else
      var first := projects[0];
      [if first.id in ids then first.(destination := Some(connection)) else first] + Linked(projects[1..], ids, connection)
  }

  /** Linking the fresh projects of an org leaves none fresh, and as many more locked. */
  lemma {:induction false} LinkingOneOrg(projects: seq<Project>, ids: seq<string>, org: string, connection: string, checked: set<string>)
    requires forall p :: p in projects && p.org == Some(org) ==> (p.id in ids <==> IsFresh(p, connection, checked))
    ensures var rows := RowsOf(Linked(projects, ids, connection), org, connection, checked);
            && FreshIds(rows) == []
            && LockedCount(rows) == LockedCount(RowsOf(projects, org, connection, checked)) + |FreshIds(RowsOf(projects, org, connection, checked))|
  {
    if projects != [] {
      LinkingOneOrg(projects[1..], ids, org, connection, checked);
      var linked := Linked(projects, ids, connection);
      assert linked[1..] == Linked(projects[1..], ids, connection);
      var rest, more := RowsOf(projects[1..], org, connection, checked), RowsOf(linked[1..], org, connection, checked);
      assert ([LinkRow(projects[0], connection, checked)] + rest)[1..] == rest;
      assert ([LinkRow(linked[0], connection, checked)] + more)[1..] == more;
    }
  }

  lemma {:induction false} LinkingOrgs(view: View, ids: seq<string>, orgs: seq<string>, connection: string, checked: set<string>)
    requires forall p :: p in view.projects && p.org.Some? && p.org.value in orgs ==> (p.id in ids <==> IsFresh(p, connection, checked))
    ensures var rows := PlanRows(view, orgs, connection, checked);
            var after := PlanRows(view.(projects := Linked(view.projects, ids, connection)), orgs, connection, checked);
            FreshIds(after) == [] && LockedCount(after) == LockedCount(rows) + |FreshIds(rows)|
    decreases |orgs|
  {
    if orgs != [] {
      var later := view.(projects := Linked(view.projects, ids, connection));
      LinkingOneOrg(view.projects, ids, orgs[0], connection, checked);
      LinkingOrgs(view, ids, orgs[1..], connection, checked);
      PlanRowsByOrg(view, orgs, connection, checked);
      PlanRowsByOrg(later, orgs, connection, checked);
      FreshIdsTogether(RowsOf(view.projects, orgs[0], connection, checked), PlanRows(view, orgs[1..], connection, checked));
      FreshIdsTogether(RowsOf(later.projects, orgs[0], connection, checked), PlanRows(later, orgs[1..], connection, checked));
    }
  }

  /** Linking what a plan says leaves nothing new to link, and as many more already linked. */
  lemma {:induction false} LinkingSettlesThePlan(view: View, connection: Connection, checked: set<string>)
    requires UniqueIds(view.projects)
    ensures var plan := PlanOf(view, connection, checked);
            var after := PlanOf(view.(projects := Linked(view.projects, plan.newIds, connection.name)), connection, checked);
            after.newIds == [] && after.alreadyCount == plan.alreadyCount + |plan.newIds|
  {
    var plan := PlanOf(view, connection, checked);
    forall p | p in view.projects && p.org.Some? && p.org.value in connection.orgs
      ensures p.id in plan.newIds <==> IsFresh(p, connection.name, checked)
    {
      OneProjectPerId(view.projects, p);
      NewIdsAreFresh(view, connection.orgs, connection.name, checked, p.id);
    }
    LinkingOrgs(view, plan.newIds, connection.orgs, connection.name, checked);
  }

  // ---- orgs not allowed ----

  /** The orgs shown as not allowed: those of the view that own projects and are not the connection's. */
  lemma {:induction false} NotAllowedOrgs(projects: seq<Project>, orgs: seq<string>, connection: Connection, org: string)
    ensures org in WithProjects(projects, RemainingOrgs(orgs, connection)) <==>
            org in orgs && org !in connection.orgs && HasProjects(projects, org)
  {
    if orgs != [] {
      NotAllowedOrgs(projects, orgs[1..], connection, org);
      if orgs[0] !in connection.orgs {
        assert ([orgs[0]] + RemainingOrgs(orgs[1..], connection))[1..] == RemainingOrgs(orgs[1..], connection);
      }
    }
  }
}
