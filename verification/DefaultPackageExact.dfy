/**
 * What applying the default package puts into each table and into the report, row by row and column
 * by column, in the words of the seeds (api/src/lib/defaultInstallPackage.ts).
 */
module DefaultPackageExact {
  import opened Wrappers
  import opened OwnedTables
  import opened DefaultPackage
  import opened DefaultPackageTheorems

  // ---------------------------------------------------------------- texts

  ghost predicate Spaces(s: string) { forall i :: 0 <= i < |s| ==> s[i] == ' ' }

  /** Trimming takes the spaces off both ends, and nothing else. */
  lemma {:induction false} TrimIsExact(left: string, core: string, right: string)
    requires Spaces(left) && Spaces(right)
    requires core == "" || (core[0] != ' ' && core[|core| - 1] != ' ')
    ensures Trim(left + core + right) == core
    decreases |left| + |right|
  {
    var s := left + core + right;
    if left != "" {
      TrimIsExact(left[1..], core, right);
      assert s[1..] == left[1..] + core + right;
    } else if right != "" {
      assert s == core + right;
      if core == "" {
        TrimIsExact("", core, right[1..]);
        assert s[1..] == "" + core + right[1..];
      } else {
        TrimIsExact("", core, right[..|right| - 1]);
        assert s[..|s| - 1] == "" + core + right[..|right| - 1];
      }
    } else {
      assert s == core;
    }
  }

  lemma {:induction false} TrimCuts(s: string) returns (left: string, right: string)
    ensures Spaces(left) && Spaces(right) && s == left + Trim(s) + right
    ensures Trim(s) == "" || (Trim(s)[0] != ' ' && Trim(s)[|Trim(s)| - 1] != ' ')
  {
    left, right := "", "";
    if s == "" {
    } else if s[0] == ' ' {
      left, right := TrimCuts(s[1..]);
      left := " " + left;
    } else if s[|s| - 1] == ' ' {
      left, right := TrimCuts(s[..|s| - 1]);
      right := right + " ";
    }
  }

  /** A column is filled if it is null or holds nothing but spaces. */
  lemma {:induction false} BlankIff(column: Option<string>)
    ensures Blank(column) <==> column.None? || Spaces(column.value)
  {
    if column.Some? {
      var left, right := TrimCuts(column.value);
      if Spaces(column.value) { TrimIsExact(column.value, "", ""); assert column.value + "" + "" == column.value; }
    }
  }

  ghost predicate EmptyList(s: string) {
    exists left, right :: Spaces(left) && Spaces(right) && s == left + "[]" + right
  }

  /** So is a skill list if it is empty between its spaces. */
  lemma {:induction false} NoSkillsIff(column: Option<string>)
    ensures NoSkills(column) <==> column.None? || Spaces(column.value) || EmptyList(column.value)
  {
    BlankIff(column);
    if column.Some? {
      if Trim(column.value) == "[]" {
        var left, right := TrimCuts(column.value);
      }
      if left, right :| Spaces(left) && Spaces(right) && column.value == left + "[]" + right {
        TrimIsExact(left, "[]", right);
      }
    }
  }

  // ---------------------------------------------------------------- the project

  ghost predicate Called(p: Package, row: Project, name: string) {
    row.tenant == Some(p.tenant) && p.lower(row.name) == p.lower(name)
  }

  ghost predicate FirstCalled(p: Package, projects: seq<Project>, name: string, at: nat) {
    && at < |projects| && Called(p, projects[at], name)
    && forall j :: 0 <= j < at ==> !Called(p, projects[j], name)
  }

  ghost predicate NoneCalled(p: Package, projects: seq<Project>, name: string) {
    forall j :: 0 <= j < |projects| ==> !Called(p, projects[j], name)
  }

  const DESCRIPTION := "Starter tenant project for Agent HQ workflows and agents."

  /** The one project of the package: found by its name, or renamed from its former name, or new. */
  ghost predicate ProjectPut(p: Package, before: seq<Project>, after: seq<Project>, at: nat) {
    || (FirstCalled(p, before, "Default Project", at) && after == before)
    || (&& NoneCalled(p, before, "Default Project") && FirstCalled(p, before, "Agent HQ", at)
        && |after| == |before| && (forall j :: 0 <= j < |before| && j != at ==> after[j] == before[j])
        && after[at].tenant == before[at].tenant && after[at].context == before[at].context
        && after[at].name == "Default Project"
        && after[at].description == if before[at].description.None? || Spaces(before[at].description.value)
                                    then Some(DESCRIPTION) else before[at].description)
    || (&& NoneCalled(p, before, "Default Project") && NoneCalled(p, before, "Agent HQ")
        && at == |before|
        && after == before + [Project(Some(p.tenant), "Default Project", Some(DESCRIPTION),
                                      "Starter workspace for this tenant.")])
  }

  lemma {:induction false} ProjectIsPut(p: Package, db: Db, scan: Scan)
    requires Cast(p)
    ensures ProjectPut(p, db.projects, Apply(p, db, scan).db.projects, PutProject(p, db.projects).id)
  {
    hide Apply, ProjectPut, PutProject;
    ApplyTables(p, db, scan);
    PutProjectPuts(p, db.projects);
  }

  lemma {:induction false} PutProjectPuts(p: Package, projects: seq<Project>)
    ensures ProjectPut(p, projects, PutProject(p, projects).rows, PutProject(p, projects).id)
  {
    hide Spaces, Blank, DESCRIPTION, PROJECT_DESCRIPTION, First;
    assert DESCRIPTION == PROJECT_DESCRIPTION by { SameDescription(); }
    var existing := First(projects, NamedProject(p, PROJECT_NAME));
    var legacy := First(projects, NamedProject(p, LEGACY_PROJECT_NAME));
    assert existing.Some? ==> FirstCalled(p, projects, "Default Project", existing.value);
    assert legacy.Some? ==> FirstCalled(p, projects, "Agent HQ", legacy.value);
    if existing.None? && legacy.Some? { BlankIff(projects[legacy.value].description); }
  }

  lemma {:induction false} SameDescription()
    ensures DESCRIPTION == PROJECT_DESCRIPTION
  {
  }

  /** The tables after `Apply`, each as the operation that fills it leaves it. */
  lemma {:induction false} ApplyTables(p: Package, db: Db, scan: Scan)
    requires Cast(p)
    ensures var a, at := Apply(p, db, scan).db, PutProject(p, db.projects).id;
            var o := PutWorkflows(p, db.workflows, at);
            var agents := PutAgents(p, db.agents, db.capabilities, at, p.agents);
            && a.projects == PutProject(p, db.projects).rows && a.workflows == o.workflows
            && a.agents == agents.agents && a.capabilities == agents.capabilities && Staffed(agents.byKey)
            && a.routing == AddAll(db.routing, RoutingRows(p, at, agents.byKey))
            && a.transitions == AddAll(db.transitions, TransitionRows(p, o.workflows, o.entries))
            && a.models == AddAll(db.models, ModelRows(p, at))
            && a.taskTypes == AddAll(db.taskTypes, TaskTypeRows(p, p.taskTypes))
  {
    hide PutProject, PutWorkflows, PutAgents, RoutingRows, TransitionRows, ModelRows, TaskTypeRows, AddAll, PutAll,
         ProjectReport, AgentsReport, AddCount, Staffed, Clashes, AllUpdates;
    CastIsStaffed(p, db.agents, db.capabilities, PutProject(p, db.projects).id);
  }

  // ---------------------------------------------------------------- lookups

  /** ORDER BY preferred first, then by id. */
  ghost predicate BestAt<T>(s: seq<T>, fits: T -> bool, preferred: T -> bool, at: nat) {
    && at < |s| && fits(s[at])
    && forall j :: 0 <= j < |s| && fits(s[j]) && (preferred(s[at]) ==> preferred(s[j])) ==>
         at <= j && preferred(s[j]) == preferred(s[at])
  }

  /** `at` is the best row, or none fits. */
  ghost predicate Answer<T>(s: seq<T>, fits: T -> bool, preferred: T -> bool, at: Option<nat>) {
    if at.Some? then BestAt(s, fits, preferred, at.value) else forall j :: 0 <= j < |s| ==> !fits(s[j])
  }

  lemma {:induction false} BestIsBest<T>(s: seq<T>, fits: T -> bool, preferred: T -> bool)
    ensures Answer(s, fits, preferred, Best(s, fits, preferred))
  {
    var at := Best(s, fits, preferred);
    assert forall row :: Both(fits, preferred)(row) == (fits(row) && preferred(row));
    if at.Some? {
      forall j | 0 <= j < |s| && fits(s[j]) && (preferred(s[at.value]) ==> preferred(s[j]))
        ensures at.value <= j && preferred(s[j]) == preferred(s[at.value])
      {
        assert Both(fits, preferred)(s[j]) == preferred(s[j]);
      }
    }
  }

  predicate IsBacklog(p: Package, row: Workflow) {
    p.lower(row.name) == p.lower("Backlog") || row.workflowType == "generic"
  }

  /** The backlog has its name or type, and the row with the name goes first. */
  lemma {:induction false} BacklogLookup(p: Package, workflows: seq<Workflow>, project: nat)
    ensures Answer(workflows,
              (row: Workflow) => row.tenant == Some(p.tenant) && row.project == project && IsBacklog(p, row),
              (row: Workflow) => p.lower(row.name) == p.lower("Backlog"), FindBacklog(p, workflows, project))
  {
    BestIsBest(workflows, BacklogFits(p, project), Bears(p, Generic));
    assert forall row :: Bears(p, Generic)(row) == (p.lower(row.name) == p.lower("Backlog"));
    assert forall row :: BacklogFits(p, project)(row) == (Hosts(p, project, row) && IsBacklog(p, row));
  }

  /** The workflow of a starter type has that type, and the row with the starter's name goes first. */
  lemma {:induction false} StarterLookup(p: Package, workflows: seq<Workflow>, project: nat, t: StarterType)
    ensures var (name, text) := match t
              case Generic => ("Backlog", "generic")
              case Dev => ("Development", "dev")
              case OpsType => ("Operations", "ops")
              case LeadGeneration => ("Lead Generation", "lead_generation");
            Answer(workflows,
              (row: Workflow) => row.tenant == Some(p.tenant) && row.project == project && row.workflowType == text,
              (row: Workflow) => p.lower(row.name) == p.lower(name), FindStarter(p, workflows, project, t))
  {
    BestIsBest(workflows, StarterFits(p, project, t), Bears(p, t));
  }

  /** An agent of the tenant answers by part, session, runtime or name, and the one in the part goes first. */
  lemma {:induction false} AgentLookup(p: Package, agents: seq<Agent>, s: AgentSeed)
    ensures Answer(agents,
              (a: Agent) => a.tenant == Some(p.tenant) && !a.deleted
                && (|| a.systemRole == Some(s.systemRole) || a.sessionKey == Some(s.sessionKey)
                    || a.runtimeId == Some(s.runtimeId) || p.lower(a.name) == p.lower(s.name)),
              (a: Agent) => a.systemRole == Some(s.systemRole), FindAgent(p, agents, s))
  {
    BestIsBest(agents, Answers(p, s), Plays(s));
  }

  // ---------------------------------------------------------------- agents

  /** The columns of an agent after a seed was offered to it: full ones stay, the others get the seed's value. */
  ghost predicate TextFilled(before: Option<string>, after: Option<string>, text: string) {
    after == if before.None? || Spaces(before.value) then Some(text) else before
  }

  ghost predicate ValueFilled<T>(before: Option<T>, after: Option<T>, value: Option<T>) {
    after == if before.None? then value else before
  }

  ghost predicate AgentFilled(a: Agent, a': Agent, s: AgentSeed, project: nat) {
    && a'.tenant == a.tenant && a'.deleted == a.deleted && a'.name == a.name
    && ValueFilled(a.project, a'.project, Some(project)) && ValueFilled(a.systemRole, a'.systemRole, Some(s.systemRole))
    && ValueFilled(a.runtimeType, a'.runtimeType, Some("openclaw")) && ValueFilled(a.model, a'.model, s.model)
    && ValueFilled(a.enabled, a'.enabled, Some(true)) && TextFilled(a.status, a'.status, "idle")
    && TextFilled(a.role, a'.role, s.role) && TextFilled(a.jobTitle, a'.jobTitle, s.jobTitle)
    && TextFilled(a.runtimeConfig, a'.runtimeConfig, s.runtimeConfig)
    && TextFilled(a.runtimeId, a'.runtimeId, s.runtimeId) && TextFilled(a.sessionKey, a'.sessionKey, s.sessionKey)
    && TextFilled(a.workspacePath, a'.workspacePath, s.workspacePath)
    && TextFilled(a.provider, a'.provider, s.provider) && TextFilled(a.instructions, a'.instructions, s.instructions)
    && a'.skillNames ==
         if a.skillNames.None? || Spaces(a.skillNames.value) || EmptyList(a.skillNames.value)
         then Some(s.skillNames) else a.skillNames
  }

  /** The agent that was found is completed and keeps its place; otherwise a new one is complete from the start. */
  lemma {:induction false} AgentIsPut(p: Package, agents: seq<Agent>, s: AgentSeed, project: nat)
    ensures var at, f := FindAgent(p, agents, s), PutAgent(p, agents, s, project);
            if at.Some? then
              && f.id == at.value && |f.rows| == |agents|
              && (forall j :: 0 <= j < |agents| && j != f.id ==> f.rows[j] == agents[j])
              && AgentFilled(agents[f.id], f.rows[f.id], s, project)
            else
              && f.id == |agents| && |f.rows| == |agents| + 1 && f.rows[..f.id] == agents
              && var blank := Agent(Some(p.tenant), false, s.name, None, None, None, None, None, None, None, None, None,
                                    None, None, None, None, None, None);
                 AgentFilled(blank, f.rows[f.id], s, project)
  {
    hide Spaces, EmptyList, Blank, NoSkills;
    var at := FindAgent(p, agents, s);
    if at.Some? { FillFills(agents[at.value], s, project); }
  }

  lemma {:induction false} FillFills(a: Agent, s: AgentSeed, project: nat)
    ensures AgentFilled(a, Fill(a, s, project), s, project)
  {
    hide Spaces, Blank, NoSkills, EmptyList;
    BlankIff(a.role);
    BlankIff(a.jobTitle);
    BlankIff(a.runtimeConfig);
    BlankIff(a.runtimeId);
    BlankIff(a.sessionKey);
    BlankIff(a.workspacePath);
    BlankIff(a.provider);
    BlankIff(a.instructions);
    BlankIff(a.status);
    NoSkillsIff(a.skillNames);
  }

  // ---------------------------------------------------------------- rows that are only added

  /** Row `j` is the first of its key, in the table and in the list. */
  ghost predicate FirstOfKey<K, V>(t: seq<Keyed<K, V>>, rows: seq<Keyed<K, V>>, j: nat) {
    j < |rows| && !Has(t, rows[j].key) && forall i :: 0 <= i < j ==> rows[i].key != rows[j].key
  }

  ghost predicate Increasing(order: seq<nat>) { forall a, b :: 0 <= a < b < |order| ==> order[a] < order[b] }

  /** `t'` is `t` with the first row of each new key behind it, in the order of the list. */
  ghost predicate OnlyAdded<K, V>(t: seq<Keyed<K, V>>, rows: seq<Keyed<K, V>>, t': seq<Keyed<K, V>>, order: seq<nat>) {
    && Increasing(order) && (forall j: nat :: j in order <==> FirstOfKey(t, rows, j))
    && |t'| == |t| + |order| && t'[..|t|] == t
    && forall k :: 0 <= k < |order| ==> order[k] < |rows| && t'[|t| + k] == rows[order[k]]
  }

  lemma {:induction false} AddAllIsExact<K, V>(t: seq<Keyed<K, V>>, rows: seq<Keyed<K, V>>) returns (order: seq<nat>)
    ensures OnlyAdded(t, rows, AddAll(t, rows), order)
  {
    if rows == [] {
      order := [];
    } else {
      var n := |rows| - 1;
      var front, u := rows[..n], AddAll(t, rows[..n]);
      order := AddAllIsExact(t, front);
      HasAdded(t, front, u, order, rows[n].key);
      assert forall j: nat :: j < n ==> (FirstOfKey(t, rows, j) <==> FirstOfKey(t, front, j));
      assert FirstOfKey(t, rows, n) <==> !Has(u, rows[n].key);
      var was := order;
      if !Has(u, rows[n].key) {
        order := order + [n];
        assert forall j: nat :: j in order <==> j in was || j == n;
      }
    }
  }

  lemma {:induction false} HasAdded<K, V>(t: seq<Keyed<K, V>>, rows: seq<Keyed<K, V>>, t': seq<Keyed<K, V>>,
                                          order: seq<nat>, k: K)
    requires OnlyAdded(t, rows, t', order)
    ensures Has(t', k) <==> Has(t, k) || exists j :: 0 <= j < |rows| && rows[j].key == k
  {
    if i :| 0 <= i < |t| && t[i].key == k { assert t'[..|t|][i] == t'[i]; }
    assert forall i :: 0 <= i < |t| ==> t'[i] == t[i];
    if Has(t', k) && !Has(t, k) {
      var i :| 0 <= i < |t'| && t'[i].key == k;
      assert t'[|t| + (i - |t|)] == rows[order[i - |t|]];
    }
    if !Has(t, k) {
      if j: nat :| j < |rows| && rows[j].key == k {
        var first := FirstWithKey(rows, k, j);
        assert FirstOfKey(t, rows, first);
        var m :| 0 <= m < |order| && order[m] == first;
        assert t'[|t| + m].key == k;
      }
    }
  }

  lemma {:induction false} FirstWithKey<K, V>(rows: seq<Keyed<K, V>>, k: K, j: nat) returns (first: nat)
    requires j < |rows| && rows[j].key == k
    ensures first <= j && rows[first].key == k && forall i :: 0 <= i < first ==> rows[i].key != k
  {
    first := 0;
    while rows[first].key != k
      invariant first <= j && forall i :: 0 <= i < first ==> rows[i].key != k
      decreases j - first
    {
      first := first + 1;
    }
  }

  /** Each row added satisfies `meant`, and each row that does has its key in the table. */
  ghost predicate Added<K, V>(t: seq<Keyed<K, V>>, t': seq<Keyed<K, V>>, meant: iset<Keyed<K, V>>) {
    && |t| <= |t'| && t'[..|t|] == t
    && (forall i :: |t| <= i < |t'| ==> t'[i] in meant)
    && (forall row :: row in meant ==> Has(t', row.key))
  }

  lemma {:induction false} AddAllAdds<K, V>(t: seq<Keyed<K, V>>, rows: seq<Keyed<K, V>>, meant: iset<Keyed<K, V>>)
    requires forall row :: row in rows <==> row in meant
    ensures Added(t, AddAll(t, rows), meant)
  {
    var t' := AddAll(t, rows);
    var order := AddAllIsExact(t, rows);
    AddAllHas(t, rows);
    forall i | |t| <= i < |t'| ensures t'[i] in meant {
      assert t'[|t| + (i - |t|)] == rows[order[i - |t|]];
    }
    forall row | row in meant ensures Has(t', row.key) {
      var j :| 0 <= j < |rows| && rows[j] == row;
      assert Has(t', rows[j].key);
    }
  }

  // ---------------------------------------------------------------- rows derived from the seeds

  /** The names that the starter types go by in the tables. */
  lemma {:induction false} StarterNames(t: StarterType)
    ensures (TypeText(t), WorkflowName(t)) == match t
              case Generic => ("generic", "Backlog")
              case Dev => ("dev", "Development")
              case OpsType => ("ops", "Operations")
              case LeadGeneration => ("lead_generation", "Lead Generation")
  {
  }

  ghost predicate TaskTypeFrom(p: Package, seeds: seq<TypeTasks>, row: Keyed<TaskTypeKey, bool>) {
    exists s :: s in seeds && row.key.taskType in s.taskTypes
      && row == Keyed(TaskTypeKey(p.tenant, TypeText(s.workflowType), row.key.taskType), true)
  }

  /** Each task type of each seed has a row, marked as the package's. */
  lemma {:induction false} TaskTypesAfter(p: Package, db: Db, scan: Scan)
    requires Cast(p)
    ensures Added(db.taskTypes, Apply(p, db, scan).db.taskTypes, iset row | TaskTypeFrom(p, p.taskTypes, row))
  {
    hide Apply, AddAll, TaskTypeFrom, Added;
    ApplyTables(p, db, scan);
    forall row ensures row in TaskTypeRows(p, p.taskTypes) <==> TaskTypeFrom(p, p.taskTypes, row) {
      TaskTypeRowsAre(p, p.taskTypes, row);
    }
    AddAllAdds(db.taskTypes, TaskTypeRows(p, p.taskTypes), iset row | TaskTypeFrom(p, p.taskTypes, row));
  }

  lemma {:induction false} TaskTypeRowsAre(p: Package, seeds: seq<TypeTasks>, row: Keyed<TaskTypeKey, bool>)
    ensures row in TaskTypeRows(p, seeds) <==> TaskTypeFrom(p, seeds, row)
  {
    hide TypeText;
    if seeds == [] {
    } else {
      var n := |seeds| - 1;
      var front, s := seeds[..n], seeds[n];
      var last := seq(|s.taskTypes|, i requires 0 <= i < |s.taskTypes| =>
                        TaskTypeRow(p, s.workflowType, s.taskTypes[i]));
      TaskTypeRowsAre(p, front, row);
      assert TaskTypeRows(p, seeds) == TaskTypeRows(p, front) + last;
      var listed := row.key.taskType in s.taskTypes && row == TaskTypeRow(p, s.workflowType, row.key.taskType);
      assert row in last <==> listed by {
        if i: nat :| i < |s.taskTypes| && s.taskTypes[i] == row.key.taskType {
          assert last[i] == TaskTypeRow(p, s.workflowType, s.taskTypes[i]);
        }
      }
      assert forall x :: x in seeds <==> x in front || x == s;
    }
  }

  // ---------------------------------------------------------------- routing

  /** Who takes up work that is ready, by workflow type and task type. */
  function ReadyFor(workflowType: string, taskType: string): Option<AgentKey> {
    if taskType == "qa" && workflowType in {"generic", "dev", "ops"} then Some(Review)
    else if taskType in {"backend", "frontend", "fullstack"} && workflowType in {"generic", "dev"} then Some(Developer)
    else if taskType in {"adhoc", "other"} && workflowType in {"generic", "ops"} then Some(Pm)
    else if taskType == "ops" && workflowType == "ops" then Some(Ops)
    else None
  }

  /** The first seed of the starter type lists the task type. */
  ghost predicate Offers(p: Package, t: StarterType, taskType: string) {
    exists i: nat :: i < |p.taskTypes| && p.taskTypes[i].workflowType == t && taskType in p.taskTypes[i].taskTypes
      && forall j :: 0 <= j < i ==> p.taskTypes[j].workflowType != t
  }

  ghost predicate OfStarter(p: Package, workflowType: string, taskType: string) {
    exists t :: t in p.starters && TypeText(t) == workflowType && Offers(p, t, taskType)
  }

  /**
   * Work in review goes to the review agent; ready work as above; development work ready to merge goes
   * to operations. All rules are for the whole project, with priority 100.
   */
  ghost predicate IsRule(p: Package, project: nat, agents: map<AgentKey, nat>, row: Keyed<RoutingKey, int>)
    requires Staffed(agents)
  {
    var k := row.key;
    && row.value == 100 && k.tenant == p.tenant && k.project == project && k.workflow == None
    && (|| (&& k.status == "ready" && ReadyFor(k.workflowType, k.taskType).Some?
            && k.agent == agents[ReadyFor(k.workflowType, k.taskType).value])
        || (k.status == "review" && OfStarter(p, k.workflowType, k.taskType) && k.agent == agents[Review])
        || (k.status == "ready_to_merge" && k.workflowType == "dev" && OfStarter(p, "dev", k.taskType)
            && k.agent == agents[Ops]))
  }

  lemma {:induction false} ReadyRulesAre(p: Package, project: nat, agents: map<AgentKey, nat>,
                                         row: Keyed<RoutingKey, int>)
    requires Staffed(agents)
    ensures row in ReadyRules(p, project, agents) <==>
              && row.key.status == "ready" && row.value == 100 && row.key.tenant == p.tenant
              && row.key.project == project && row.key.workflow == None
              && ReadyFor(row.key.workflowType, row.key.taskType).Some?
              && row.key.agent == agents[ReadyFor(row.key.workflowType, row.key.taskType).value]
  {
    var k := row.key;
    assert row == Keyed(RoutingKey(k.tenant, k.project, k.workflow, k.workflowType, k.taskType, k.status, k.agent),
                        row.value);
  }

  /** The rules after the ready ones, for task types of one starter type. */
  ghost predicate IsLater(p: Package, project: nat, agents: map<AgentKey, nat>, t: StarterType, taskTypes: seq<string>,
                          row: Keyed<RoutingKey, int>)
    requires Staffed(agents)
  {
    var k := row.key;
    && row.value == 100 && k.tenant == p.tenant && k.project == project && k.workflow == None
    && k.workflowType == TypeText(t) && k.taskType in taskTypes
    && ((k.status == "review" && k.agent == agents[Review])
        || (k.status == "ready_to_merge" && t == Dev && k.agent == agents[Ops]))
  }

  lemma {:induction false} LaterRulesAre(p: Package, project: nat, agents: map<AgentKey, nat>, t: StarterType,
                                         taskTypes: seq<string>, row: Keyed<RoutingKey, int>)
    requires Staffed(agents)
    ensures row in LaterRules(p, project, agents, t, taskTypes) <==> IsLater(p, project, agents, t, taskTypes, row)
  {
    hide TypeText;
    if taskTypes == [] {
    } else {
      var n := |taskTypes| - 1;
      LaterRulesAre(p, project, agents, t, taskTypes[..n], row);
      var review := Rule(p, project, t, taskTypes[n], "review", agents[Review]);
      var merge := Rule(p, project, t, taskTypes[n], "ready_to_merge", agents[Ops]);
      var last := [review] + if t == Dev then [merge] else [];
      assert LaterRules(p, project, agents, t, taskTypes)
          == LaterRules(p, project, agents, t, taskTypes[..n]) + last;
      assert row in last <==> row == review || (t == Dev && row == merge);
      var k := row.key;
      assert row == Keyed(RoutingKey(k.tenant, k.project, k.workflow, k.workflowType, k.taskType, k.status, k.agent),
                          row.value);
      assert forall x :: x in taskTypes <==> x in taskTypes[..n] || x == taskTypes[n];
    }
  }

  lemma {:induction false} TaskTypesOffered(p: Package, t: StarterType, taskType: string)
    ensures taskType in TaskTypesOf(p.taskTypes, t) <==> Offers(p, t, taskType)
  {
  }

  lemma {:induction false} StarterRulesAre(p: Package, project: nat, agents: map<AgentKey, nat>,
                                           starters: seq<StarterType>, row: Keyed<RoutingKey, int>)
    requires Staffed(agents)
    ensures row in StarterRules(p, project, agents, starters) <==>
              exists t :: t in starters && IsLater(p, project, agents, t, TaskTypesOf(p.taskTypes, t), row)
  {
    hide IsLater, LaterRules, TaskTypesOf;
    if starters == [] {
    } else {
      var n := |starters| - 1;
      StarterRulesAre(p, project, agents, starters[..n], row);
      LaterRulesAre(p, project, agents, starters[n], TaskTypesOf(p.taskTypes, starters[n]), row);
      assert forall x :: x in starters <==> x in starters[..n] || x == starters[n];
    }
  }

  lemma {:induction false} RoutingRowsAre(p: Package, project: nat, agents: map<AgentKey, nat>,
                                          row: Keyed<RoutingKey, int>)
    requires Staffed(agents)
    ensures row in RoutingRows(p, project, agents) <==> IsRule(p, project, agents, row)
  {
    hide ReadyRules, StarterRules, ReadyFor, Offers, TaskTypesOf;
    ReadyRulesAre(p, project, agents, row);
    StarterRulesAre(p, project, agents, p.starters, row);
    forall t ensures row.key.taskType in TaskTypesOf(p.taskTypes, t) <==> Offers(p, t, row.key.taskType) {
      TaskTypesOffered(p, t, row.key.taskType);
    }
    assert forall t :: TypeText(t) == "dev" <==> t == Dev;
  }

  /** The agents that the parts are given to, as their seeds find them once all are there. */
  ghost predicate Holders(p: Package, agents: seq<Agent>, byKey: map<AgentKey, nat>) {
    Staffed(byKey) && forall k: AgentKey :: Staffs(p, agents, k, byKey[k])
  }

  /** The routing table gains these rules and no others. */
  lemma {:induction false} RoutingAfter(p: Package, db: Db, scan: Scan) returns (agents: map<AgentKey, nat>)
    requires Cast(p) && SeedsApart(p, p.agents)
    ensures var a, project := Apply(p, db, scan).db, PutProject(p, db.projects).id;
            && Holders(p, a.agents, agents)
            && Added(db.routing, a.routing, iset row | IsRule(p, project, agents, row))
  {
    hide Apply, AddAll, RoutingRows, IsRule, Added, PutProject, PutAgents, SeedsApart, Staffs;
    ApplyTables(p, db, scan);
    var project := PutProject(p, db.projects).id;
    agents := PutAgents(p, db.agents, db.capabilities, project, p.agents).byKey;
    assert p.agents[..|p.agents|] == p.agents;
    forall k: AgentKey ensures Staffs(p, Apply(p, db, scan).db.agents, k, agents[k]) {
      assert Seeded(p.agents, k);
      PartsAreStaffed(p, db.agents, db.capabilities, project, |p.agents|, k);
    }
    forall row ensures row in RoutingRows(p, project, agents) <==> IsRule(p, project, agents, row) {
      RoutingRowsAre(p, project, agents, row);
    }
    AddAllAdds(db.routing, RoutingRows(p, project, agents), iset row | IsRule(p, project, agents, row));
  }

  /** Models of one provider for small, medium and large work of the whole project. */
  ghost predicate IsModel(p: Package, project: nat, row: Keyed<ModelKey, Model>) {
    && row.key.tenant == p.tenant && row.key.project == project && row.key.workflow == None
    && row.key.workflowType == None && row.key.provider == "anthropic"
    && (|| (row.key.maxPoints == 2
            && row.value == Model("anthropic/claude-haiku-4-5", "low", true, "Default small work"))
        || (row.key.maxPoints == 5
            && row.value == Model("anthropic/claude-sonnet-4-6", "medium", false, "Default medium work"))
        || (row.key.maxPoints == 13
            && row.value == Model("anthropic/claude-opus-4-6", "high", false, "Default large work")))
  }

  lemma {:induction false} ModelsAfter(p: Package, db: Db, scan: Scan)
    requires Cast(p)
    ensures Added(db.models, Apply(p, db, scan).db.models,
                  iset row | IsModel(p, PutProject(p, db.projects).id, row))
  {
    hide Apply, AddAll, Added, PutProject, IsModel, ModelRows;
    ApplyTables(p, db, scan);
    var project := PutProject(p, db.projects).id;
    forall row ensures row in ModelRows(p, project) <==> IsModel(p, project, row) {
      ModelRowsAre(p, project, row);
    }
    AddAllAdds(db.models, ModelRows(p, project), iset row | IsModel(p, project, row));
  }

  lemma {:induction false} ModelRowsAre(p: Package, project: nat, row: Keyed<ModelKey, Model>)
    ensures row in ModelRows(p, project) <==> IsModel(p, project, row)
  {
    var k := row.key;
    assert row == Keyed(ModelKey(k.tenant, k.project, k.workflow, k.workflowType, k.maxPoints, k.provider), row.value);
  }

  // ---------------------------------------------------------------- workflows and transitions

  /** The workflow that stands for a starter type: the generic type has the backlog. */
  function Home(p: Package, workflows: seq<Workflow>, project: nat, t: StarterType): Option<nat> {
    if t == Generic then FindBacklog(p, workflows, project) else FindStarter(p, workflows, project, t)
  }

  ghost predicate OncePerStarter(entries: seq<Entry>) {
    forall i, j :: 0 <= i < j < |entries| ==> entries[i].starter != entries[j].starter
  }

  lemma {:induction false} SetEntrySets(entries: seq<Entry>, e: Entry)
    requires OncePerStarter(entries)
    ensures OncePerStarter(SetEntry(entries, e))
    ensures forall x :: x in SetEntry(entries, e) <==> x == e || (x in entries && x.starter != e.starter)
  {
    if entries == [] {
    } else if entries[0].starter != e.starter {
      SetEntrySets(entries[1..], e);
      var rest := SetEntry(entries[1..], e);
      assert forall x :: x in entries <==> x == entries[0] || x in entries[1..];
      assert forall x :: x in rest ==> x.starter != entries[0].starter;
    } else {
      assert forall x :: x in entries <==> x == entries[0] || x in entries[1..];
      assert forall x :: x in entries[1..] ==> x.starter != e.starter;
    }
  }

  ghost predicate EntriesFind(p: Package, o: StartersOut, project: nat, starters: seq<StarterType>) {
    && OncePerStarter(o.entries)
    && (forall e :: e in o.entries <==>
          e.starter in starters && FindStarter(p, o.workflows, project, e.starter) == Some(e.workflow))
    && (forall t :: t in starters ==> FindStarter(p, o.workflows, project, t).Some?)
  }

  lemma {:induction false} StartersFind(p: Package, workflows: seq<Workflow>, project: nat, starters: seq<StarterType>)
    ensures EntriesFind(p, PutStarters(p, workflows, project, starters), project, starters)
  {
    hide FindStarter, SetEntry;
    if starters == [] {
    } else {
      var n := |starters| - 1;
      var t, o := starters[n], PutStarters(p, workflows, project, starters[..n]);
      var f := PutStarter(p, o.workflows, project, t);
      StartersFind(p, workflows, project, starters[..n]);
      SetEntrySets(o.entries, Entry(t, f.id));
      StarterIsFound(p, o.workflows, project, t);
      forall x | x in starters[..n]
        ensures FindStarter(p, f.rows, project, x) == FindStarter(p, o.workflows, project, x)
      {
        StarterStays(p, o.workflows, project, x, t);
      }
      assert forall x :: x in starters <==> x in starters[..n] || x == t;
    }
  }

  ghost predicate IsHome(p: Package, workflows: seq<Workflow>, project: nat, e: Entry) {
    (e.starter == Generic || e.starter in p.starters) && Home(p, workflows, project, e.starter) == Some(e.workflow)
  }

  /** Each starter type is mapped to its workflow, once. */
  lemma {:induction false} WorkflowsAreMapped(p: Package, workflows: seq<Workflow>, project: nat)
    requires NamesDiffer(p)
    ensures var o := PutWorkflows(p, workflows, project);
            OncePerStarter(o.entries) && forall e :: e in o.entries <==> IsHome(p, o.workflows, project, e)
  {
    hide FindStarter, FindBacklog, SetEntry, PutStarters;
    var backlog := PutBacklog(p, workflows, project);
    var o := PutStarters(p, backlog.rows, project, p.starters);
    StartersFind(p, backlog.rows, project, p.starters);
    SetEntrySets(o.entries, Entry(Generic, backlog.id));
    BacklogIsFound(p, workflows, project);
    BacklogSurvives(p, backlog.rows, project, p.starters);
  }

  ghost predicate IsTransition(p: Package, workflows: seq<Workflow>, project: nat,
                               row: Keyed<TransitionKey, Transition>) {
    exists t, s ::
      && s in p.transitions(t) && IsHome(p, workflows, project, Entry(t, row.key.workflow))
      && row.key.workflow < |workflows|
      && row.key == TransitionKey(p.tenant, row.key.workflow, s.taskType, s.from, s.outcome)
      && row.value == Transition(workflows[row.key.workflow].project, workflows[row.key.workflow].workflowType, s.to,
                                 s.enabled, s.priority)
  }

  ghost predicate TransitionOf(p: Package, workflows: seq<Workflow>, entries: seq<Entry>,
                               row: Keyed<TransitionKey, Transition>) {
    exists e, s ::
      && e in entries && s in p.transitions(e.starter) && e.workflow == row.key.workflow
      && row.key.workflow < |workflows|
      && row.key == TransitionKey(p.tenant, row.key.workflow, s.taskType, s.from, s.outcome)
      && row.value == Transition(workflows[row.key.workflow].project, workflows[row.key.workflow].workflowType, s.to,
                                 s.enabled, s.priority)
  }

  lemma {:induction false} TransitionRowsAre(p: Package, workflows: seq<Workflow>, entries: seq<Entry>,
                                             row: Keyed<TransitionKey, Transition>)
    requires forall e :: e in entries ==> e.workflow < |workflows|
    ensures row in TransitionRows(p, workflows, entries) <==> TransitionOf(p, workflows, entries, row)
  {
    if entries == [] {
    } else {
      var n := |entries| - 1;
      var front, e := entries[..n], entries[n];
      var seeds := p.transitions(e.starter);
      var last := seq(|seeds|, i requires 0 <= i < |seeds| => TransitionRow(p, e, workflows[e.workflow], seeds[i]));
      TransitionRowsAre(p, workflows, front, row);
      assert TransitionRows(p, workflows, entries) == TransitionRows(p, workflows, front) + last;
      assert row in last <==> TransitionOf(p, workflows, [e], row) by {
        if s :| s in seeds && row == TransitionRow(p, e, workflows[e.workflow], s) {
          var i :| 0 <= i < |seeds| && seeds[i] == s;
          assert last[i] == row;
        }
        if row in last {
          var i :| 0 <= i < |seeds| && last[i] == row;
          assert seeds[i] in seeds && e in [e];
        }
      }
      assert forall x :: x in entries <==> x in front || x in [e];
    }
  }

  lemma {:induction false} TransitionsAfter(p: Package, db: Db, scan: Scan)
    requires Cast(p) && NamesDiffer(p)
    ensures var a, project := Apply(p, db, scan).db, PutProject(p, db.projects).id;
            Added(db.transitions, a.transitions, iset row | IsTransition(p, a.workflows, project, row))
  {
    hide Apply, AddAll, Added, PutProject, PutWorkflows, TransitionRows, IsHome, OncePerStarter;
    ApplyTables(p, db, scan);
    var project := PutProject(p, db.projects).id;
    var o := PutWorkflows(p, db.workflows, project);
    WorkflowsAreMapped(p, db.workflows, project);
    forall row
      ensures row in TransitionRows(p, o.workflows, o.entries) <==> IsTransition(p, o.workflows, project, row)
    {
      TransitionRowsAre(p, o.workflows, o.entries, row);
      SameTransition(p, o, project, row);
    }
    AddAllAdds(db.transitions, TransitionRows(p, o.workflows, o.entries),
               iset row | IsTransition(p, o.workflows, project, row));
  }

  lemma {:induction false} SameTransition(p: Package, o: StartersOut, project: nat,
                                          row: Keyed<TransitionKey, Transition>)
    requires forall e :: e in o.entries <==> IsHome(p, o.workflows, project, e)
    ensures TransitionOf(p, o.workflows, o.entries, row) <==> IsTransition(p, o.workflows, project, row)
  {
    hide IsHome;
    if TransitionOf(p, o.workflows, o.entries, row) {
      var e, s :| e in o.entries && s in p.transitions(e.starter) && e.workflow == row.key.workflow
        && row.key == TransitionKey(p.tenant, row.key.workflow, s.taskType, s.from, s.outcome)
        && row.key.workflow < |o.workflows|
        && row.value == Transition(o.workflows[row.key.workflow].project, o.workflows[row.key.workflow].workflowType,
                                   s.to, s.enabled, s.priority);
      assert e == Entry(e.starter, row.key.workflow);
    }
  }

  /** Rows from `from` on are new workflows of the starters, each of a type that had none before it. */
  ghost predicate NewAreStarters(p: Package, workflows: seq<Workflow>, project: nat, from: nat) {
    forall i :: from <= i < |workflows| ==> IsNewStarter(p, workflows, project, i)
  }

  ghost predicate IsNewStarter(p: Package, workflows: seq<Workflow>, project: nat, i: nat)
    requires i < |workflows|
  {
    exists t: StarterType ::
      && (t == Generic || t in p.starters)
      && workflows[i] == Workflow(Some(p.tenant), project, WorkflowName(t), TypeText(t))
      && forall j :: 0 <= j < i ==>
           !(workflows[j].tenant == Some(p.tenant) && workflows[j].project == project
             && workflows[j].workflowType == TypeText(t))
  }

  lemma {:induction false} NewStays(p: Package, workflows: seq<Workflow>, more: seq<Workflow>, project: nat, i: nat)
    requires i < |workflows| <= |more| && more[..|workflows|] == workflows && IsNewStarter(p, workflows, project, i)
    ensures IsNewStarter(p, more, project, i)
  {
    assert forall j :: 0 <= j < |workflows| ==> more[j] == workflows[j];
  }

  lemma {:induction false} StartersAreNew(p: Package, workflows: seq<Workflow>, project: nat,
                                          starters: seq<StarterType>, from: nat)
    requires NewAreStarters(p, workflows, project, from) && forall t :: t in starters ==> t in p.starters
    ensures NewAreStarters(p, PutStarters(p, workflows, project, starters).workflows, project, from)
  {
    hide IsNewStarter, SetEntry, FindStarter;
    if starters == [] {
    } else {
      var n := |starters| - 1;
      var t, before := starters[n], PutStarters(p, workflows, project, starters[..n]).workflows;
      StartersAreNew(p, workflows, project, starters[..n], from);
      PutIsNew(p, before, project, t);
      var after := PutStarter(p, before, project, t).rows;
      forall i | from <= i < |after| ensures IsNewStarter(p, after, project, i) {
        if i < |before| { NewStays(p, before, after, project, i); }
      }
    }
  }

  lemma {:induction false} PutIsNew(p: Package, before: seq<Workflow>, project: nat, t: StarterType)
    requires t in p.starters
    ensures var after := PutStarter(p, before, project, t).rows;
            && |before| <= |after| && after[..|before|] == before
            && forall i :: |before| <= i < |after| ==> IsNewStarter(p, after, project, i)
  {
    hide Best;
    BestIsBest(before, StarterFits(p, project, t), Bears(p, t));
  }

  /** The workflows that the package adds, the backlog first, and that every starter type has one afterwards. */
  lemma {:induction false} WorkflowsAfter(p: Package, db: Db, scan: Scan, t: StarterType)
    requires Cast(p) && NamesDiffer(p)
    ensures var a, project := Apply(p, db, scan).db, PutProject(p, db.projects).id;
            && db.workflows <= a.workflows && NewAreStarters(p, a.workflows, project, |db.workflows|)
            && (t == Generic || t in p.starters ==> Home(p, a.workflows, project, t).Some?)
            && var at := FindBacklog(p, db.workflows, project);
               if at.Some? then FindBacklog(p, a.workflows, project) == at
               else
                 && |db.workflows| < |a.workflows|
                 && a.workflows[|db.workflows|] == Workflow(Some(p.tenant), project, "Backlog", "generic")
  {
    hide Apply, PutProject, FindStarter, FindBacklog, IsNewStarter, PutStarters;
    ApplyTables(p, db, scan);
    var project := PutProject(p, db.projects).id;
    var backlog := PutBacklog(p, db.workflows, project);
    BacklogIsNew(p, db.workflows, project);
    StartersAreNew(p, backlog.rows, project, p.starters, |db.workflows|);
    WorkflowsKept(p, backlog.rows, project, p.starters);
    StartersFind(p, backlog.rows, project, p.starters);
    BacklogIsFound(p, db.workflows, project);
    BacklogSurvives(p, backlog.rows, project, p.starters);
  }

  lemma {:induction false} BacklogIsNew(p: Package, before: seq<Workflow>, project: nat)
    ensures var after := PutBacklog(p, before, project).rows;
            before <= after && NewAreStarters(p, after, project, |before|)
  {
    hide Best;
    BestIsBest(before, BacklogFits(p, project), Bears(p, Generic));
  }

  // ---------------------------------------------------------------- capabilities

  /** A policy that some seed's agent has for a capability of the catalogue. */
  ghost predicate IsPolicy(p: Package, agents: seq<Agent>, row: Keyed<CapabilityKey, bool>) {
    exists s :: s in p.agents && FindAgent(p, agents, s) == Some(row.key.agent) && row.key.capability in p.catalog
      && row.value == (row.key.capability in s.capabilities)
  }

  ghost predicate PoliciesOf(p: Package, agents: seq<Agent>, c: seq<Keyed<CapabilityKey, bool>>,
                             c': seq<Keyed<CapabilityKey, bool>>) {
    && |c| <= |c'| && c'[..|c|] == c
    && (forall i :: |c| <= i < |c'| ==> IsPolicy(p, agents, c'[i]))
    && (forall s, k :: s in p.agents && k in p.catalog ==> HasPolicy(p, agents, c', s, k))
  }

  ghost predicate HasPolicy(p: Package, agents: seq<Agent>, c: seq<Keyed<CapabilityKey, bool>>, s: AgentSeed, k: string)
  {
    var at := FindAgent(p, agents, s); at.Some? && Has(c, CapabilityKey(at.value, k))
  }

  /** The agent of each seed has a policy for each capability, on if and only if the seed asks for it. */
  lemma {:induction false} CapabilitiesAfter(p: Package, db: Db, scan: Scan)
    requires Cast(p) && SeedsApart(p, p.agents)
    ensures var a := Apply(p, db, scan).db; PoliciesOf(p, a.agents, db.capabilities, a.capabilities)
  {
    hide Apply, PutProject, PutWorkflows, PutAgents, SeedsApart, PoliciesOf, RoutingRows, TransitionRows, ModelRows,
         TaskTypeRows, AddAll, Cast, Staffed;
    ApplyTables(p, db, scan);
    PoliciesArePut(p, db.agents, db.capabilities, PutProject(p, db.projects).id);
  }

  lemma {:induction false} PoliciesArePut(p: Package, agents: seq<Agent>, c: seq<Keyed<CapabilityKey, bool>>,
                                          project: nat)
    requires SeedsApart(p, p.agents)
    ensures var o := PutAgents(p, agents, c, project, p.agents); PoliciesOf(p, o.agents, c, o.capabilities)
  {
    hide PutAgents, SeedsApart, IsPolicy, HasPolicy;
    assert p.agents[..|p.agents|] == p.agents;
    var o := PutAgents(p, agents, c, project, p.agents);
    CapabilitiesKept(p, agents, c, project, p.agents);
    NewArePolicies(p, agents, c, project, |p.agents|);
    forall s, k | s in p.agents && k in p.catalog ensures HasPolicy(p, o.agents, o.capabilities, s, k) {
      var i :| 0 <= i < |p.agents| && p.agents[i] == s;
      SeedHasPolicy(p, agents, c, project, i, k);
    }
  }

  lemma {:induction false} SeedHasPolicy(p: Package, agents: seq<Agent>, c: seq<Keyed<CapabilityKey, bool>>,
                                         project: nat, i: nat, k: string)
    requires SeedsApart(p, p.agents) && i < |p.agents| && k in p.catalog
    ensures var o := PutAgents(p, agents, c, project, p.agents); HasPolicy(p, o.agents, o.capabilities, p.agents[i], k)
  {
    hide PutAgents, SeedsApart, PutAgent, FindAgent, Policies, Fill;
    var id := PutAgent(p, PutAgents(p, agents, c, project, p.agents[..i]).agents, p.agents[i], project).id;
    AgentSurvives(p, agents, c, project, p.agents, i);
    PoliciesSurvive(p, agents, c, project, p.agents, i);
    PolicyListed(p, id, p.agents[i], k);
  }

  lemma {:induction false} PolicyListed(p: Package, agent: nat, s: AgentSeed, k: string)
    ensures k in p.catalog ==>
              exists i :: 0 <= i < |Policies(p, agent, s)| && Policies(p, agent, s)[i].key == CapabilityKey(agent, k)
    ensures forall row :: row in Policies(p, agent, s) ==>
              && row.key.agent == agent && row.key.capability in p.catalog
              && row.value == (row.key.capability in s.capabilities)
  {
    if k in p.catalog {
      var i :| 0 <= i < |p.catalog| && p.catalog[i] == k;
      assert Policies(p, agent, s)[i].key == CapabilityKey(agent, k);
    }
  }

  lemma {:induction false} NewArePolicies(p: Package, agents: seq<Agent>, c: seq<Keyed<CapabilityKey, bool>>,
                                          project: nat, n: nat)
    requires n <= |p.agents| && SeedsApart(p, p.agents)
    ensures var all := PutAgents(p, agents, c, project, p.agents).agents;
            var c' := PutAgents(p, agents, c, project, p.agents[..n]).capabilities;
            forall i :: |c| <= i < |c'| ==> IsPolicy(p, all, c'[i])
  {
    hide SeedsApart, FindAgent, PutAgent, Policies, AddAll, Fill;
    if n == 0 {
    } else {
      var s, front := p.agents[n - 1], p.agents[..n - 1];
      NewArePolicies(p, agents, c, project, n - 1);
      assert p.agents[..n][..n - 1] == front;
      var o := PutAgents(p, agents, c, project, front);
      var id := PutAgent(p, o.agents, s, project).id;
      AgentSurvives(p, agents, c, project, p.agents, n - 1);
      PolicyListed(p, id, s, "");
      AddedAreListed(o.capabilities, Policies(p, id, s));
    }
  }

  lemma {:induction false} AddedAreListed<K, V>(t: seq<Keyed<K, V>>, rows: seq<Keyed<K, V>>)
    ensures forall i :: |t| <= i < |AddAll(t, rows)| ==> AddAll(t, rows)[i] in rows
    ensures forall i :: 0 <= i < |t| ==> AddAll(t, rows)[i] == t[i]
  {
    AddAllAdds(t, rows, iset row | row in rows);
  }

  // ---------------------------------------------------------------- the report

  ghost predicate SeedsDiffer<K, V>(seeds: seq<Seed<K, V>>) {
    forall m, n :: 0 <= m < n < |seeds| ==> seeds[m].key != seeds[n].key
  }

  /** The package's row of the seed's key is written: in any case, or if it differs. */
  ghost predicate Refreshed<K, V>(t: seq<Owned<K, V>>, s: Seed<K, V>, always: bool) {
    exists i :: 0 <= i < |t| && t[i].key == s.key && t[i].system && (always || t[i].value != s.value)
  }

  /** The tenant's row of the seed's key stands in the way. */
  ghost predicate Obstructed<K, V>(t: seq<Owned<K, V>>, s: Seed<K, V>, always: bool) {
    exists i :: 0 <= i < |t| && t[i].key == s.key && !t[i].system && (always || t[i].value != s.value)
  }

  ghost function RefreshedSeeds<K, V>(t: seq<Owned<K, V>>, seeds: seq<Seed<K, V>>, n: nat, always: bool): set<nat>
    requires n <= |seeds|
  {
    set m: nat | m < n && Refreshed(t, seeds[m], always)
  }

  lemma {:induction false} UpdatesIff<K, V>(policy: Policy, t: seq<Owned<K, V>>, seeds: seq<Seed<K, V>>, n: nat,
                                            picks: Picks, hint: nat)
    requires n < |seeds| && KeysUnique(t) && SeedsDiffer(seeds)
    ensures Updates(policy, PutAll(t, seeds[..n], picks), seeds[n], hint)
         == if Refreshed(t, seeds[n], policy.refreshAlways) then 1 else 0
  {
    var u, s := PutAll(t, seeds[..n], picks), seeds[n];
    UniqueKeysProtect(t, seeds[..n], picks);
    PutAllKeys(t, seeds[..n], picks);
    LastValueIsSeeded(seeds[..n], s.key);
    assert forall m :: 0 <= m < n ==> seeds[..n][m].key != s.key;
    forall i | 0 <= i < |t| && t[i].key == s.key ensures u[i] == t[i] {
      UnseededRowsKept(t, seeds[..n], picks, i);
    }
    var at := Pick(u, s.key, hint);
    if at.Some? {
      assert HasKey(u, s.key);
      var i :| 0 <= i < |t| && t[i].key == s.key;
      assert i == at.value by { SameRow(u, i, at.value); }
      forall j | 0 <= j < |t| && t[j].key == s.key ensures j == i {
        SameRow(t, i, j);
      }
    } else {
      forall i | 0 <= i < |t| ensures t[i].key != s.key {
        assert u[i].key == t[i].key;
      }
    }
  }

  lemma {:induction false} SameRow<K, V>(t: seq<Owned<K, V>>, i: nat, j: nat)
    requires KeysUnique(t) && i < |t| && j < |t| && t[i].key == t[j].key
    ensures i == j
  {
  }

  lemma {:induction false} UpdatesAreRefreshes<K, V>(policy: Policy, t: seq<Owned<K, V>>, seeds: seq<Seed<K, V>>,
                                                     n: nat, picks: Picks)
    requires n <= |seeds| && KeysUnique(t) && SeedsDiffer(seeds)
    ensures AllUpdates(policy, t, seeds[..n], picks) == |RefreshedSeeds(t, seeds, n, policy.refreshAlways)|
  {
    hide Updates, PutAll, KeysUnique, SeedsDiffer, Refreshed;
    if n == 0 {
    } else {
      assert seeds[..n][..n - 1] == seeds[..n - 1];
      UpdatesAreRefreshes(policy, t, seeds, n - 1, picks);
      UpdatesIff(policy, t, seeds, n - 1, picks, picks(n - 1));
      var before, after := RefreshedSeeds(t, seeds, n - 1, policy.refreshAlways),
                           RefreshedSeeds(t, seeds, n, policy.refreshAlways);
      var last := Refreshed(t, seeds[n - 1], policy.refreshAlways);
      assert forall m: nat :: m in after <==> m in before || (m == n - 1 && last);
      assert after == before + if last then {n - 1} else {};
      assert |after| == |before| + if last then 1 else 0;
    }
  }

  /** The counts of updated rows, where unique indexes cover the keys and no key is seeded twice. */
  lemma {:induction false} UpdatesAreCounted(p: Package, db: Db, scan: Scan, k: Kind)
    requires Cast(p)
    requires KeysUnique(db.skills) && KeysUnique(db.types) && KeysUnique(db.schemas) && KeysUnique(db.outcomes)
    requires SeedsDiffer(p.skills) && SeedsDiffer(p.types) && SeedsDiffer(p.schemas) && SeedsDiffer(p.outcomes)
    ensures Count(Apply(p, db, scan).report.updated, k) == match k
              case Skills => |RefreshedSeeds(db.skills, p.skills, |p.skills|, false)|
              case WorkflowTypes => |RefreshedSeeds(db.types, p.types, |p.types|, true)|
              case FieldSchemas => |RefreshedSeeds(db.schemas, p.schemas, |p.schemas|, true)|
              case Outcomes => |RefreshedSeeds(db.outcomes, p.outcomes, |p.outcomes|, true)|
              case _ => 0
  {
    hide Apply, KeysUnique, SeedsDiffer, RefreshedSeeds, AllUpdates, AddCount, Count, PutAgents, PutProject,
         ProjectReport, AllClashes, Cast;
    assert p.skills[..|p.skills|] == p.skills && p.types[..|p.types|] == p.types;
    assert p.schemas[..|p.schemas|] == p.schemas && p.outcomes[..|p.outcomes|] == p.outcomes;
    UpdatesAreRefreshes(Policy(Skills, false, false), db.skills, p.skills, |p.skills|, scan.skills);
    UpdatesAreRefreshes(Policy(WorkflowTypes, true, false), db.types, p.types, |p.types|, scan.types);
    UpdatesAreRefreshes(Policy(FieldSchemas, true, false), db.schemas, p.schemas, |p.schemas|, scan.schemas);
    UpdatesAreRefreshes(Policy(Outcomes, true, true), db.outcomes, p.outcomes, |p.outcomes|, scan.outcomes);
    ReportFields(p, db, scan);
    var n1 := AllUpdates(Policy(Skills, false, false), db.skills, p.skills, scan.skills);
    var n2 := AllUpdates(Policy(WorkflowTypes, true, false), db.types, p.types, scan.types);
    var n3 := AllUpdates(Policy(FieldSchemas, true, false), db.schemas, p.schemas, scan.schemas);
    var none: map<Kind, nat> := map[];
    CountOfNone(k);
    CountAfter(none, Skills, n1, k);
    CountAfter(AddCount(none, Skills, n1), WorkflowTypes, n2, k);
    CountAfter(AddCount(AddCount(none, Skills, n1), WorkflowTypes, n2), FieldSchemas, n3, k);
    CountAfter(AddCount(AddCount(AddCount(none, Skills, n1), WorkflowTypes, n2), FieldSchemas, n3), Outcomes,
               AllUpdates(Policy(Outcomes, true, true), db.outcomes, p.outcomes, scan.outcomes), k);
  }

  lemma {:induction false} ReportFields(p: Package, db: Db, scan: Scan)
    requires Cast(p)
    ensures var r := Apply(p, db, scan).report;
            var none: map<Kind, nat> := map[];
            var agents := PutAgents(p, db.agents, db.capabilities, PutProject(p, db.projects).id, p.agents);
            && r.updated ==
                 AddCount(AddCount(AddCount(AddCount(none, Skills,
                   AllUpdates(Policy(Skills, false, false), db.skills, p.skills, scan.skills)), WorkflowTypes,
                   AllUpdates(Policy(WorkflowTypes, true, false), db.types, p.types, scan.types)), FieldSchemas,
                   AllUpdates(Policy(FieldSchemas, true, false), db.schemas, p.schemas, scan.schemas)), Outcomes,
                   AllUpdates(Policy(Outcomes, true, true), db.outcomes, p.outcomes, scan.outcomes))
            && r.restored == AddCount(ProjectReport(p, db.projects, EMPTY_REPORT).restored, Agents, agents.restored)
            && r.conflicts == AllClashes(p, db, scan)
  {
    hide PutProject, PutWorkflows, PutAgents, RoutingRows, TransitionRows, ModelRows, TaskTypeRows, AddAll, PutAll,
         AddCount, Staffed, Clashes, AllUpdates;
  }

  lemma {:induction false} AgentsRestored(p: Package, agents: seq<Agent>, c: seq<Keyed<CapabilityKey, bool>>,
                                          project: nat, seeds: seq<AgentSeed>)
    ensures var o := PutAgents(p, agents, c, project, seeds); o.restored + (|o.agents| - |agents|) == |seeds|
  {
    hide Answers, Plays, Fill, Policies, AddAll;
    if seeds != [] {
      AgentsRestored(p, agents, c, project, seeds[..|seeds| - 1]);
      AgentIsPut(p, PutAgents(p, agents, c, project, seeds[..|seeds| - 1]).agents, seeds[|seeds| - 1], project);
    }
  }

  /** Restored: the project if it was renamed, and each starter agent that did not have to be created. */
  lemma {:induction false} RestoredAreCounted(p: Package, db: Db, scan: Scan, k: Kind)
    requires Cast(p)
    ensures var a := Apply(p, db, scan);
            Count(a.report.restored, k) == match k
              case Agents => |p.agents| - (|a.db.agents| - |db.agents|)
              case Projects =>
                if NoneCalled(p, db.projects, "Default Project") && !NoneCalled(p, db.projects, "Agent HQ")
                then 1 else 0
              case _ => 0
  {
    hide Apply, PutAgents, AddCount, First, ProjectReport, NoneCalled, PutProject;
    ReportFields(p, db, scan);
    ApplyTables(p, db, scan);
    var project := PutProject(p, db.projects).id;
    AgentsRestored(p, db.agents, db.capabilities, project, p.agents);
    var restored := ProjectReport(p, db.projects, EMPTY_REPORT).restored;
    CountAfter(restored, Agents, PutAgents(p, db.agents, db.capabilities, project, p.agents).restored, k);
    ProjectRestored(p, db.projects, k);
  }

  lemma {:induction false} ProjectRestored(p: Package, projects: seq<Project>, k: Kind)
    ensures Count(ProjectReport(p, projects, EMPTY_REPORT).restored, k)
         == if k == Projects && NoneCalled(p, projects, "Default Project") && !NoneCalled(p, projects, "Agent HQ")
            then 1 else 0
  {
    hide AddCount, First;
    CountAfter(map[], Projects, 1, k);
    CountOfNone(k);
    var existing := First(projects, NamedProject(p, PROJECT_NAME));
    var legacy := First(projects, NamedProject(p, LEGACY_PROJECT_NAME));
    assert existing.None? <==> NoneCalled(p, projects, "Default Project");
    assert legacy.None? <==> NoneCalled(p, projects, "Agent HQ");
  }

  /** Seed `n` is reported: a tenant's row differs from it, or for outcomes has its key. */
  ghost predicate Conflicts<K, V>(kind: Kind, t: seq<Owned<K, V>>, seeds: seq<Seed<K, V>>, always: bool, c: Conflict) {
    exists n :: 0 <= n < |seeds| && c == Conflict(kind, seeds[n].caption) && Obstructed(t, seeds[n], always)
  }

  lemma {:induction false} StandingIff<K, V>(policy: Policy, t: seq<Owned<K, V>>, seeds: seq<Seed<K, V>>, n: nat,
                                             c: Conflict)
    requires n <= |seeds| && Agreed(t, seeds)
    ensures c in Standing(policy, t, seeds[..n]) <==>
              Conflicts(policy.kind, t, seeds[..n], policy.conflictAlways, c)
  {
    hide Clash, Agreed, Obstructed;
    if n == 0 {
    } else {
      var front, s := seeds[..n - 1], seeds[n - 1];
      assert seeds[..n][..n - 1] == front && seeds[..n][n - 1] == s;
      StandingIff(policy, t, seeds, n - 1, c);
      ClashIff(policy, t, seeds, n - 1);
      assert c in Standing(policy, t, seeds[..n]) <==> c in Standing(policy, t, front) || c in Clash(policy, t, s, 0);
      assert Conflicts(policy.kind, t, front, policy.conflictAlways, c) ==>
          Conflicts(policy.kind, t, seeds[..n], policy.conflictAlways, c) by {
        assert forall m :: 0 <= m < n - 1 ==> front[m] == seeds[..n][m];
      }
    }
  }

  lemma {:induction false} ClashIff<K, V>(policy: Policy, t: seq<Owned<K, V>>, seeds: seq<Seed<K, V>>, n: nat)
    requires n < |seeds| && Agreed(t, seeds)
    ensures Clash(policy, t, seeds[n], 0)
         == if Obstructed(t, seeds[n], policy.conflictAlways) then [Conflict(policy.kind, seeds[n].caption)] else []
  {
    var s := seeds[n];
    LastValueIsSeeded(seeds, s.key);
    var at := Pick(t, s.key, 0);
    if at.Some? {
      forall i | 0 <= i < |t| && t[i].key == s.key
        ensures t[i].system == t[at.value].system && (!t[i].system ==> t[i].value == t[at.value].value)
      {
        assert !SharedKey(t, seeds, i, at.value) && !SharedKey(t, seeds, at.value, i);
        assert !t[i].system && !t[at.value].system ==> TwoOfTenant(t, seeds, i, at.value);
      }
    }
  }

  /** What is reported as a conflict, read off the tables as the package finds them. */
  lemma {:induction false} ConflictsAreReported(p: Package, db: Db, scan: Scan, c: Conflict)
    requires Cast(p) && TablesAgreed(p, db)
    ensures c in Apply(p, db, scan).report.conflicts <==>
              || Conflicts(Skills, db.skills, p.skills, false, c)
              || Conflicts(WorkflowTypes, db.types, p.types, false, c)
              || Conflicts(FieldSchemas, db.schemas, p.schemas, false, c)
              || Conflicts(Outcomes, db.outcomes, p.outcomes, true, c)
  {
    hide Apply, Clashes, Standing, Agreed, Conflicts;
    ReportFields(p, db, scan);
    ClashesIff(Policy(Skills, false, false), db.skills, p.skills, scan.skills, c);
    ClashesIff(Policy(WorkflowTypes, true, false), db.types, p.types, scan.types, c);
    ClashesIff(Policy(FieldSchemas, true, false), db.schemas, p.schemas, scan.schemas, c);
    ClashesIff(Policy(Outcomes, true, true), db.outcomes, p.outcomes, scan.outcomes, c);
  }

  lemma {:induction false} ClashesIff<K, V>(policy: Policy, t: seq<Owned<K, V>>, seeds: seq<Seed<K, V>>, picks: Picks,
                                            c: Conflict)
    requires Agreed(t, seeds)
    ensures c in Clashes(policy, t, seeds, picks) <==> Conflicts(policy.kind, t, seeds, policy.conflictAlways, c)
  {
    hide Clashes, Standing, Agreed;
    assert seeds[..|seeds|] == seeds;
    ClashesStand(policy, t, seeds, |seeds|, picks);
    StandingIff(policy, t, seeds, |seeds|, c);
  }
}
