/**
 * Applying the default install package to a tenant (api/src/lib/defaultInstallPackage.ts).
 *
 * A table is the sequence of its rows in the order of their ids. Projects, workflows and agents are
 * referred to by position, which stands for the id; a removed row is one that belongs to no tenant.
 * Time columns are not modelled.
 */
module DefaultPackage {
  import opened Wrappers
  import opened OwnedTables

  // ---------------------------------------------------------------- rows

  /** A row that is inserted if no row has its key. */
  datatype Keyed<K, V> = Keyed(key: K, value: V)

  datatype SkillKey = SkillKey(tenant: nat, name: string)
  datatype Skill = Skill(description: string, content: string)
  datatype TypeKey = TypeKey(tenant: nat, workflowType: string)
  datatype WorkflowType = WorkflowType(name: string, description: string, repoRequired: bool)
  datatype TaskTypeKey = TaskTypeKey(tenant: nat, workflowType: string, taskType: string)
  datatype OutcomeKey = OutcomeKey(tenant: nat, workflowType: string, taskType: Option<string>, outcome: string)
  datatype Outcome = Outcome(
    caption: string, description: string, enabled: int, behavior: string, badge: Option<string>, stage: int,
    metadata: string)
  datatype CapabilityKey = CapabilityKey(agent: nat, capability: string)
  datatype RoutingKey = RoutingKey(
    tenant: nat, project: nat, workflow: Option<nat>, workflowType: string, taskType: string, status: string,
    agent: nat)
  datatype TransitionKey = TransitionKey(
    tenant: nat, workflow: nat, taskType: Option<string>, from: string, outcome: string)
  datatype Transition = Transition(project: nat, workflowType: string, to: string, enabled: int, priority: int)
  datatype ModelKey = ModelKey(
    tenant: nat, project: nat, workflow: Option<nat>, workflowType: Option<string>, maxPoints: int, provider: string)
  datatype Model = Model(model: string, thinking: string, fastMode: bool, caption: string)

  datatype Project = Project(tenant: Option<nat>, name: string, description: Option<string>, context: string)
  datatype Workflow = Workflow(tenant: Option<nat>, project: nat, name: string, workflowType: string)

  datatype Agent = Agent(
    tenant: Option<nat>, deleted: bool, name: string, project: Option<nat>, role: Option<string>,
    jobTitle: Option<string>,
    systemRole: Option<string>, runtimeType: Option<string>, runtimeConfig: Option<string>, runtimeId: Option<string>,
    sessionKey: Option<string>, workspacePath: Option<string>, provider: Option<string>, model: Option<string>,
    skillNames: Option<string>, instructions: Option<string>, enabled: Option<bool>, status: Option<string>)

  datatype Db = Db(
    skills: seq<Owned<SkillKey, Skill>>,
    types: seq<Owned<TypeKey, WorkflowType>>,
    schemas: seq<Owned<TypeKey, string>>,
    taskTypes: seq<Keyed<TaskTypeKey, bool>>,
    outcomes: seq<Owned<OutcomeKey, Outcome>>,
    projects: seq<Project>,
    workflows: seq<Workflow>,
    agents: seq<Agent>,
    capabilities: seq<Keyed<CapabilityKey, bool>>,
    routing: seq<Keyed<RoutingKey, int>>,
    transitions: seq<Keyed<TransitionKey, Transition>>,
    models: seq<Keyed<ModelKey, Model>>)

  // ---------------------------------------------------------------- the package

  datatype AgentKey = Pm | Developer | Review | Ops

  /** A starter agent with the texts that are derived from the seed and the tenant. */
  datatype AgentSeed = AgentSeed(
    key: AgentKey, name: string, role: string, jobTitle: string, systemRole: string, runtimeConfig: string,
    runtimeId: string, sessionKey: string, workspacePath: string, provider: string, model: Option<string>,
    skillNames: string, instructions: string, capabilities: set<string>)

  datatype StarterType = Generic | Dev | OpsType | LeadGeneration

  datatype TypeTasks = TypeTasks(workflowType: StarterType, taskTypes: seq<string>)

  datatype TransitionSeed = TransitionSeed(
    taskType: Option<string>, from: string, outcome: string, to: string, enabled: int, priority: int)

  /** The seed lists, for one tenant; `lower` is the database's function of that name. */
  datatype Package = Package(
    tenant: nat,
    lower: string -> string,
    skills: seq<Seed<SkillKey, Skill>>,
    starters: seq<StarterType>,
    types: seq<Seed<TypeKey, WorkflowType>>,
    schemas: seq<Seed<TypeKey, string>>,
    taskTypes: seq<TypeTasks>,
    outcomes: seq<Seed<OutcomeKey, Outcome>>,
    agents: seq<AgentSeed>,
    catalog: seq<string>,
    transitions: StarterType -> seq<TransitionSeed>)

  const PROJECT_NAME := "Default Project"
  const LEGACY_PROJECT_NAME := "Agent HQ"
  const PROJECT_DESCRIPTION := "Starter tenant project for Agent HQ workflows and agents."
  const BACKLOG_NAME := "Backlog"

  function TypeText(t: StarterType): string {
    match t
    case Generic => "generic"
    case Dev => "dev"
    case OpsType => "ops"
    case LeadGeneration => "lead_generation"
  }

  function WorkflowName(t: StarterType): string {
    match t
    case Generic => BACKLOG_NAME
    case Dev => "Development"
    case OpsType => "Operations"
    case LeadGeneration => "Lead Generation"
  }

  // ---------------------------------------------------------------- the report

  datatype Kind =
    | Skills | WorkflowTypes | FieldSchemas | TaskTypes | Outcomes | Projects | Workflows | Agents
    | Capabilities | RoutingRules | Transitions | ModelRouting

  datatype Conflict = Conflict(kind: Kind, caption: string)

  datatype Report = Report(created: map<Kind, nat>, restored: map<Kind, nat>, updated: map<Kind, nat>,
      conflicts: seq<Conflict>)

  const EMPTY_REPORT := Report(map[], map[], map[], [])

  function Count(m: map<Kind, nat>, k: Kind): nat { if k in m then m[k] else 0 }

  /** `n` calls of `addCount`. */
  function AddCount(m: map<Kind, nat>, k: Kind, n: nat): map<Kind, nat> {
    if n == 0 then m else m[k := Count(m, k) + n]
  }

  // ---------------------------------------------------------------- rows with an owner

  /**
   * Skills are written only when they differ, the others always; a tenant's outcome is reported
   * whether it differs or not.
   */
  datatype Policy = Policy(kind: Kind, refreshAlways: bool, conflictAlways: bool)

  function Updates<K(==), V(==)>(policy: Policy, t: seq<Owned<K, V>>, s: Seed<K, V>, hint: nat): nat {
    var at := Pick(t, s.key, hint);
    if at.Some? && t[at.value].system && (policy.refreshAlways || t[at.value].value != s.value) then 1 else 0
  }

  function Clash<K(==), V(==)>(policy: Policy, t: seq<Owned<K, V>>, s: Seed<K, V>, hint: nat): seq<Conflict> {
    var at := Pick(t, s.key, hint);
    if at.Some? && !t[at.value].system && (policy.conflictAlways || t[at.value].value != s.value)
    then [Conflict(policy.kind, s.caption)] else []
  }

  function AllUpdates<K(==), V(==)>(policy: Policy, t: seq<Owned<K, V>>, seeds: seq<Seed<K, V>>, picks: Picks): nat {
    if seeds == [] then 0
    else
      var n := |seeds| - 1;
      AllUpdates(policy, t, seeds[..n], picks) + Updates(policy, PutAll(t, seeds[..n], picks), seeds[n], picks(n))
  }

  function Clashes<K(==), V(==)>(policy: Policy, t: seq<Owned<K, V>>, seeds: seq<Seed<K, V>>,
                                 picks: Picks): seq<Conflict> {
    if seeds == [] then []
    else
      var n := |seeds| - 1;
      Clashes(policy, t, seeds[..n], picks) + Clash(policy, PutAll(t, seeds[..n], picks), seeds[n], picks(n))
  }

  function PutReport<K(==), V(==)>(policy: Policy, t: seq<Owned<K, V>>, seeds: seq<Seed<K, V>>, picks: Picks,
                                   r: Report): Report {
    PutAllKeys(t, seeds, picks);
    r.(created := AddCount(r.created, policy.kind, |PutAll(t, seeds, picks)| - |t|),
       updated := AddCount(r.updated, policy.kind, AllUpdates(policy, t, seeds, picks)),
       conflicts := r.conflicts + Clashes(policy, t, seeds, picks))
  }

  // ---------------------------------------------------------------- rows that are only added

  predicate Has<K(==), V>(t: seq<Keyed<K, V>>, k: K) { exists i :: 0 <= i < |t| && t[i].key == k }

  function Add<K(==), V>(t: seq<Keyed<K, V>>, row: Keyed<K, V>): seq<Keyed<K, V>> {
    if Has(t, row.key) then t else t + [row]
  }

  function AddAll<K(==), V>(t: seq<Keyed<K, V>>, rows: seq<Keyed<K, V>>): (t': seq<Keyed<K, V>>)
    ensures |t| <= |t'| && t'[..|t|] == t
  {
    if rows == [] then t else Add(AddAll(t, rows[..|rows| - 1]), rows[|rows| - 1])
  }

  function AddReport(kind: Kind, before: nat, after: nat, r: Report): Report
    requires before <= after
  {
    r.(created := AddCount(r.created, kind, after - before))
  }

  // ---------------------------------------------------------------- rows that are looked for

  function First<T>(s: seq<T>, p: T -> bool): (at: Option<nat>)
    ensures at.Some? ==> at.value < |s| && p(s[at.value]) && forall j :: 0 <= j < at.value ==> !p(s[j])
    ensures at.None? ==> forall j :: 0 <= j < |s| ==> !p(s[j])
  {
    if s == [] then None
    else
      var n := |s| - 1;
      var earlier := First(s[..n], p);
      if earlier.Some? then earlier else if p(s[n]) then Some(n) else None
  }

  function Both<T>(p: T -> bool, q: T -> bool): T -> bool { x => p(x) && q(x) }

  /** ORDER BY preferred first, id LIMIT 1. */
  function Best<T>(s: seq<T>, fits: T -> bool, preferred: T -> bool): Option<nat> {
    var best := First(s, Both(fits, preferred));
    if best.Some? then best else First(s, fits)
  }

  datatype Found<T> = Found(rows: seq<T>, id: nat)

  /** The database's `trim`, which takes off spaces only. */
  function Trim(text: string): string {
    if text == "" then ""
    else if text[0] == ' ' then Trim(text[1..])
    else if text[|text| - 1] == ' ' then Trim(text[..|text| - 1])
    else text
  }

  predicate Blank(column: Option<string>) { column.None? || Trim(column.value) == "" }

  function NamedProject(p: Package, name: string): Project -> bool {
    (row: Project) => row.tenant == Some(p.tenant) && p.lower(row.name) == p.lower(name)
  }

  function RestoredProject(row: Project): Project {
    row.(name := PROJECT_NAME,
         description := if Blank(row.description) then Some(PROJECT_DESCRIPTION) else row.description)
  }

  function PutProject(p: Package, projects: seq<Project>): (f: Found<Project>)
    ensures f.id < |f.rows| && |projects| <= |f.rows|
  {
    var existing := First(projects, NamedProject(p, PROJECT_NAME));
    var legacy := First(projects, NamedProject(p, LEGACY_PROJECT_NAME));
    if existing.Some? then Found(projects, existing.value)
    else if legacy.Some? then Found(projects[legacy.value := RestoredProject(projects[legacy.value])], legacy.value)
    else
      Found(projects + [Project(Some(p.tenant), PROJECT_NAME, Some(PROJECT_DESCRIPTION),
          "Starter workspace for this tenant.")],
            |projects|)
  }

  function ProjectReport(p: Package, projects: seq<Project>, r: Report): Report {
    var existing := First(projects, NamedProject(p, PROJECT_NAME));
    var legacy := First(projects, NamedProject(p, LEGACY_PROJECT_NAME));
    if existing.Some? then r
    else if legacy.Some? then r.(restored := AddCount(r.restored, Projects, 1))
    else r.(created := AddCount(r.created, Projects, 1))
  }

  predicate Hosts(p: Package, project: nat, row: Workflow) { row.tenant == Some(p.tenant) && row.project == project }

  function Bears(p: Package, t: StarterType): Workflow -> bool {
    (row: Workflow) => p.lower(row.name) == p.lower(WorkflowName(t))
  }

  function BacklogFits(p: Package, project: nat): Workflow -> bool {
    (row: Workflow) => Hosts(p, project, row) && (Bears(p, Generic)(row) || row.workflowType == "generic")
  }

  function StarterFits(p: Package, project: nat, t: StarterType): Workflow -> bool {
    (row: Workflow) => Hosts(p, project, row) && row.workflowType == TypeText(t)
  }

  /** The backlog is found by name or type, the starter workflow of a type by type only. */
  function FindBacklog(p: Package, workflows: seq<Workflow>, project: nat): Option<nat> {
    Best(workflows, BacklogFits(p, project), Bears(p, Generic))
  }

  function FindStarter(p: Package, workflows: seq<Workflow>, project: nat, t: StarterType): Option<nat> {
    Best(workflows, StarterFits(p, project, t), Bears(p, t))
  }

  function NewWorkflow(p: Package, project: nat, t: StarterType): Workflow {
    Workflow(Some(p.tenant), project, WorkflowName(t), TypeText(t))
  }

  function FoundOr<T>(rows: seq<T>, at: Option<nat>, row: T): Found<T> {
    if at.Some? then Found(rows, at.value) else Found(rows + [row], |rows|)
  }

  function PutBacklog(p: Package, workflows: seq<Workflow>, project: nat): (f: Found<Workflow>)
    ensures f.id < |f.rows| && |workflows| <= |f.rows|
  {
    FoundOr(workflows, FindBacklog(p, workflows, project), NewWorkflow(p, project, Generic))
  }

  function PutStarter(p: Package, workflows: seq<Workflow>, project: nat, t: StarterType): (f: Found<Workflow>)
    ensures f.id < |f.rows| && |workflows| <= |f.rows|
  {
    FoundOr(workflows, FindStarter(p, workflows, project, t), NewWorkflow(p, project, t))
  }

  datatype Entry = Entry(starter: StarterType, workflow: nat)

  /** `Map.set`: a key that is there keeps its place. */
  function SetEntry(entries: seq<Entry>, e: Entry): seq<Entry> {
    if entries == [] then [e]
    else if entries[0].starter == e.starter then [e] + entries[1..]
    else [entries[0]] + SetEntry(entries[1..], e)
  }

  datatype StartersOut = StartersOut(workflows: seq<Workflow>, entries: seq<Entry>)

  function PutStarters(p: Package, workflows: seq<Workflow>, project: nat, starters: seq<StarterType>): (o: StartersOut)
    ensures |workflows| <= |o.workflows|
    ensures forall e :: e in o.entries ==> e.workflow < |o.workflows|
  {
    if starters == [] then StartersOut(workflows, [])
    else
      var n := |starters| - 1;
      var o := PutStarters(p, workflows, project, starters[..n]);
      var f := PutStarter(p, o.workflows, project, starters[n]);
      SetEntryMembers(o.entries, Entry(starters[n], f.id));
      StartersOut(f.rows, SetEntry(o.entries, Entry(starters[n], f.id)))
  }

  function PutWorkflows(p: Package, workflows: seq<Workflow>, project: nat): (o: StartersOut)
    ensures |workflows| <= |o.workflows|
    ensures forall e :: e in o.entries ==> e.workflow < |o.workflows|
  {
    var backlog := PutBacklog(p, workflows, project);
    var starters := PutStarters(p, backlog.rows, project, p.starters);
    SetEntryMembers(starters.entries, Entry(Generic, backlog.id));
    StartersOut(starters.workflows, SetEntry(starters.entries, Entry(Generic, backlog.id)))
  }

  lemma {:induction false} SetEntryMembers(entries: seq<Entry>, e: Entry)
    ensures forall x :: x in SetEntry(entries, e) ==> x == e || x in entries
  {
    if entries != [] && entries[0].starter != e.starter { SetEntryMembers(entries[1..], e); }
  }

  // ---------------------------------------------------------------- agents

  /** CASE WHEN column IS NULL OR trim(column) = '' THEN ? ELSE column END */
  function FillText(column: Option<string>, text: string): Option<string> {
    if Blank(column) then Some(text) else column
  }

  predicate NoSkills(column: Option<string>) { Blank(column) || Trim(column.value) == "[]" }

  function FillSkills(column: Option<string>, text: string): Option<string> {
    if NoSkills(column) then Some(text) else column
  }

  /** COALESCE(column, ?) */
  function Coalesce<T>(column: Option<T>, value: Option<T>): Option<T> { if column.None? then value else column }

  function Fill(a: Agent, s: AgentSeed, project: nat): Agent {
    a.(project := Coalesce(a.project, Some(project)),
       role := FillText(a.role, s.role),
       jobTitle := FillText(a.jobTitle, s.jobTitle),
       systemRole := Coalesce(a.systemRole, Some(s.systemRole)),
       runtimeType := Coalesce(a.runtimeType, Some("openclaw")),
       runtimeConfig := FillText(a.runtimeConfig, s.runtimeConfig),
       runtimeId := FillText(a.runtimeId, s.runtimeId),
       sessionKey := FillText(a.sessionKey, s.sessionKey),
       workspacePath := FillText(a.workspacePath, s.workspacePath),
       provider := FillText(a.provider, s.provider),
       model := Coalesce(a.model, s.model),
       skillNames := FillSkills(a.skillNames, s.skillNames),
       instructions := FillText(a.instructions, s.instructions),
       enabled := Coalesce(a.enabled, Some(true)),
       status := FillText(a.status, "idle"))
  }

  function NewAgent(p: Package, s: AgentSeed, project: nat): Agent {
    Agent(Some(p.tenant), false, s.name, Some(project), Some(s.role), Some(s.jobTitle), Some(s.systemRole),
          Some("openclaw"), Some(s.runtimeConfig), Some(s.runtimeId), Some(s.sessionKey), Some(s.workspacePath),
          Some(s.provider), s.model,
          Some(s.skillNames), Some(s.instructions), Some(true), Some("idle"))
  }

  function Plays(s: AgentSeed): Agent -> bool { (a: Agent) => a.systemRole == Some(s.systemRole) }

  function Answers(p: Package, s: AgentSeed): Agent -> bool {
    (a: Agent) =>
      && a.tenant == Some(p.tenant) && !a.deleted
      && (Plays(s)(a) || a.sessionKey == Some(s.sessionKey) || a.runtimeId == Some(s.runtimeId)
         || p.lower(a.name) == p.lower(s.name))
  }

  function FindAgent(p: Package, agents: seq<Agent>, s: AgentSeed): Option<nat> {
    Best(agents, Answers(p, s), Plays(s))
  }

  function PutAgent(p: Package, agents: seq<Agent>, s: AgentSeed, project: nat): (f: Found<Agent>)
    ensures f.id < |f.rows| && |agents| <= |f.rows|
  {
    var at := FindAgent(p, agents, s);
    if at.Some? then Found(agents[at.value := Fill(agents[at.value], s, project)], at.value)
    else Found(agents + [NewAgent(p, s, project)], |agents|)
  }

  /** A policy for each capability of the catalogue, on if the seed asks for it. */
  function Policies(p: Package, agent: nat, s: AgentSeed): seq<Keyed<CapabilityKey, bool>> {
    seq(|p.catalog|, i requires 0 <= i < |p.catalog| => Keyed(CapabilityKey(agent, p.catalog[i]),
        p.catalog[i] in s.capabilities))
  }

  /** `restored` counts the seeds that found an agent. */
  datatype AgentsOut = AgentsOut(
    agents: seq<Agent>, capabilities: seq<Keyed<CapabilityKey, bool>>, byKey: map<AgentKey, nat>, restored: nat)

  function PutAgents(p: Package, agents: seq<Agent>, capabilities: seq<Keyed<CapabilityKey, bool>>, project: nat,
                     seeds: seq<AgentSeed>): (o: AgentsOut)
    ensures |agents| <= |o.agents| && |capabilities| <= |o.capabilities|
  {
    if seeds == [] then AgentsOut(agents, capabilities, map[], 0)
    else
      var n := |seeds| - 1;
      var o := PutAgents(p, agents, capabilities, project, seeds[..n]);
      var f := PutAgent(p, o.agents, seeds[n], project);
      AgentsOut(f.rows, AddAll(o.capabilities, Policies(p, f.id, seeds[n])), o.byKey[seeds[n].key := f.id],
                o.restored + if |f.rows| == |o.agents| then 1 else 0)
  }

  lemma {:induction false} SeededAreGiven(p: Package, agents: seq<Agent>, capabilities: seq<Keyed<CapabilityKey, bool>>,
                                          project: nat, seeds: seq<AgentSeed>, k: AgentKey)
    requires Seeded(seeds, k)
    ensures k in PutAgents(p, agents, capabilities, project, seeds).byKey
  {
    hide PutAgent, AddAll, Policies;
    var n := |seeds| - 1;
    if seeds[n].key != k {
      assert Seeded(seeds[..n], k) by {
        var s :| s in seeds && s.key == k;
        assert s in seeds[..n];
      }
      SeededAreGiven(p, agents, capabilities, project, seeds[..n], k);
    }
  }

  lemma {:induction false} CastIsStaffed(p: Package, agents: seq<Agent>, capabilities: seq<Keyed<CapabilityKey, bool>>,
                                         project: nat)
    requires Cast(p)
    ensures Staffed(PutAgents(p, agents, capabilities, project, p.agents).byKey)
  {
    forall k: AgentKey ensures k in PutAgents(p, agents, capabilities, project, p.agents).byKey {
      assert Seeded(p.agents, k);
      SeededAreGiven(p, agents, capabilities, project, p.agents, k);
    }
  }

  function AgentsReport(db: Db, o: AgentsOut, r: Report): Report
    requires |db.agents| <= |o.agents| && |db.capabilities| <= |o.capabilities|
  {
    r.(created := AddCount(AddCount(r.created, Agents, |o.agents| - |db.agents|), Capabilities,
        |o.capabilities| - |db.capabilities|),
       restored := AddCount(r.restored, Agents, o.restored))
  }

  // ---------------------------------------------------------------- rows derived from the above

  function TaskTypeRow(p: Package, t: StarterType, taskType: string): Keyed<TaskTypeKey, bool> {
    Keyed(TaskTypeKey(p.tenant, TypeText(t), taskType), true)
  }

  function TaskTypeRows(p: Package, seeds: seq<TypeTasks>): seq<Keyed<TaskTypeKey, bool>> {
    if seeds == [] then []
    else
      var s := seeds[|seeds| - 1];
      TaskTypeRows(p, seeds[..|seeds| - 1])
      + seq(|s.taskTypes|, i requires 0 <= i < |s.taskTypes| => TaskTypeRow(p, s.workflowType, s.taskTypes[i]))
  }

  function Rule(p: Package, project: nat, t: StarterType, taskType: string, status: string,
                agent: nat): Keyed<RoutingKey, int> {
    Keyed(RoutingKey(p.tenant, project, None, TypeText(t), taskType, status, agent), 100)
  }

  /** The first seed for `t`, or no task types. */
  function TaskTypesOf(seeds: seq<TypeTasks>, t: StarterType): seq<string> {
    var at := First(seeds, (s: TypeTasks) => s.workflowType == t);
    if at.Some? then seeds[at.value].taskTypes else []
  }

  predicate Staffed(byKey: map<AgentKey, nat>) { forall k: AgentKey :: k in byKey }

  /** Work that is ready, by workflow type and task type. */
  function ReadyRules(p: Package, project: nat, byKey: map<AgentKey, nat>): seq<Keyed<RoutingKey, int>>
    requires Staffed(byKey)
  {
    var pm, developer, review, ops := byKey[Pm], byKey[Developer], byKey[Review], byKey[Ops];
    [ Rule(p, project, Generic, "adhoc", "ready", pm),
      Rule(p, project, Generic, "other", "ready", pm),
      Rule(p, project, Generic, "backend", "ready", developer),
      Rule(p, project, Generic, "frontend", "ready", developer),
      Rule(p, project, Generic, "fullstack", "ready", developer),
      Rule(p, project, Generic, "qa", "ready", review),
      Rule(p, project, Dev, "backend", "ready", developer),
      Rule(p, project, Dev, "frontend", "ready", developer),
      Rule(p, project, Dev, "fullstack", "ready", developer),
      Rule(p, project, Dev, "qa", "ready", review),
      Rule(p, project, OpsType, "ops", "ready", ops),
      Rule(p, project, OpsType, "adhoc", "ready", pm),
      Rule(p, project, OpsType, "other", "ready", pm),
      Rule(p, project, OpsType, "qa", "ready", review) ]
  }

  /** Work in review, and for development also work that is ready to merge. */
  function LaterRules(p: Package, project: nat, byKey: map<AgentKey, nat>, t: StarterType,
                      taskTypes: seq<string>): seq<Keyed<RoutingKey, int>>
    requires Staffed(byKey)
  {
    if taskTypes == [] then []
    else
      var taskType := taskTypes[|taskTypes| - 1];
      LaterRules(p, project, byKey, t, taskTypes[..|taskTypes| - 1])
      + [Rule(p, project, t, taskType, "review", byKey[Review])]
      + (if t == Dev then [Rule(p, project, t, taskType, "ready_to_merge", byKey[Ops])] else [])
  }

  function StarterRules(p: Package, project: nat, byKey: map<AgentKey, nat>,
                        starters: seq<StarterType>): seq<Keyed<RoutingKey, int>>
    requires Staffed(byKey)
  {
    if starters == [] then []
    else
      var t := starters[|starters| - 1];
      StarterRules(p, project, byKey, starters[..|starters| - 1])
          + LaterRules(p, project, byKey, t, TaskTypesOf(p.taskTypes, t))
  }

  function RoutingRows(p: Package, project: nat, byKey: map<AgentKey, nat>): seq<Keyed<RoutingKey, int>>
    requires Staffed(byKey)
  {
    ReadyRules(p, project, byKey) + StarterRules(p, project, byKey, p.starters)
  }

  function TransitionRow(p: Package, e: Entry, w: Workflow, s: TransitionSeed): Keyed<TransitionKey, Transition> {
    Keyed(TransitionKey(p.tenant, e.workflow, s.taskType, s.from, s.outcome),
          Transition(w.project, w.workflowType, s.to, s.enabled, s.priority))
  }

  function TransitionRows(p: Package, workflows: seq<Workflow>,
                          entries: seq<Entry>): seq<Keyed<TransitionKey, Transition>>
    requires forall e :: e in entries ==> e.workflow < |workflows|
  {
    if entries == [] then []
    else
      var e := entries[|entries| - 1];
      var seeds := p.transitions(e.starter);
      TransitionRows(p, workflows, entries[..|entries| - 1])
      + seq(|seeds|, i requires 0 <= i < |seeds| => TransitionRow(p, e, workflows[e.workflow], seeds[i]))
  }

  function ModelRow(p: Package, project: nat, maxPoints: int, model: Model): Keyed<ModelKey, Model> {
    Keyed(ModelKey(p.tenant, project, None, None, maxPoints, "anthropic"), model)
  }

  function ModelRows(p: Package, project: nat): seq<Keyed<ModelKey, Model>> {
    [ ModelRow(p, project, 2, Model("anthropic/claude-haiku-4-5", "low", true, "Default small work")),
      ModelRow(p, project, 5, Model("anthropic/claude-sonnet-4-6", "medium", false, "Default medium work")),
      ModelRow(p, project, 13, Model("anthropic/claude-opus-4-6", "high", false, "Default large work")) ]
  }

  // ---------------------------------------------------------------- the whole package

  datatype Applied = Applied(db: Db, report: Report)

  /** A starter agent for each part that the routing rules name. */
  ghost predicate Cast(p: Package) { forall k: AgentKey :: Seeded(p.agents, k) }

  ghost predicate Seeded(seeds: seq<AgentSeed>, k: AgentKey) { exists s :: s in seeds && s.key == k }

  /** The rows that the database yields where a lookup gives no order, table by table. */
  datatype Scan = Scan(skills: Picks, types: Picks, schemas: Picks, outcomes: Picks)

  function ApplyTypes(p: Package, db: Db, scan: Scan, r: Report): Applied {
    var r := PutReport(Policy(Skills, false, false), db.skills, p.skills, scan.skills, r);
    var r := PutReport(Policy(WorkflowTypes, true, false), db.types, p.types, scan.types, r);
    var r := PutReport(Policy(FieldSchemas, true, false), db.schemas, p.schemas, scan.schemas, r);
    var taskTypes := AddAll(db.taskTypes, TaskTypeRows(p, p.taskTypes));
    var r := AddReport(TaskTypes, |db.taskTypes|, |taskTypes|, r);
    var r := PutReport(Policy(Outcomes, true, true), db.outcomes, p.outcomes, scan.outcomes, r);
    Applied(
      db.(skills := PutAll(db.skills, p.skills, scan.skills), types := PutAll(db.types, p.types, scan.types),
          schemas := PutAll(db.schemas, p.schemas, scan.schemas),
          taskTypes := taskTypes, outcomes := PutAll(db.outcomes, p.outcomes, scan.outcomes)), r)
  }

  function ApplyRest(p: Package, db: Db, r: Report): Applied
    requires Cast(p)
  {
    var project := PutProject(p, db.projects);
    var r := ProjectReport(p, db.projects, r);
    var o := PutWorkflows(p, db.workflows, project.id);
    var r := AddReport(Workflows, |db.workflows|, |o.workflows|, r);
    var agents := PutAgents(p, db.agents, db.capabilities, project.id, p.agents);
    var r := AgentsReport(db, agents, r);
    CastIsStaffed(p, db.agents, db.capabilities, project.id);
    var routing := AddAll(db.routing, RoutingRows(p, project.id, agents.byKey));
    var r := AddReport(RoutingRules, |db.routing|, |routing|, r);
    var transitions := AddAll(db.transitions, TransitionRows(p, o.workflows, o.entries));
    var r := AddReport(Transitions, |db.transitions|, |transitions|, r);
    var models := AddAll(db.models, ModelRows(p, project.id));
    var r := AddReport(ModelRouting, |db.models|, |models|, r);
    Applied(
      db.(projects := project.rows, workflows := o.workflows, agents := agents.agents,
          capabilities := agents.capabilities, routing := routing, transitions := transitions, models := models), r)
  }

  function Apply(p: Package, db: Db, scan: Scan): Applied
    requires Cast(p)
  {
    var a := ApplyTypes(p, db, scan, EMPTY_REPORT);
    ApplyRest(p, a.db, a.report)
  }

  // ---------------------------------------------------------------- one step of a loop

  lemma {:induction false} AddCountTwice(m: map<Kind, nat>, k: Kind, a: nat, b: nat)
    ensures AddCount(m, k, 0) == m && AddCount(AddCount(m, k, a), k, b) == AddCount(m, k, a + b)
  {
  }

  lemma {:induction false} PutNone<K, V>(policy: Policy, t: seq<Owned<K, V>>, picks: Picks, r: Report)
    ensures PutAll(t, [], picks) == t && PutReport(policy, t, [], picks, r) == r
  {
  }

  /** What one more seed adds to table and report. */
  lemma {:induction false} PutReportStep<K, V>(policy: Policy, t: seq<Owned<K, V>>, seeds: seq<Seed<K, V>>,
                                               picks: Picks, i: nat, r: Report)
    requires i < |seeds|
    ensures var u, q, s := PutAll(t, seeds[..i], picks), PutReport(policy, t, seeds[..i], picks, r), seeds[i];
            && PutAll(t, seeds[..i + 1], picks) == Put(u, s, picks(i))
            && |u| <= |Put(u, s, picks(i))|
            && PutReport(policy, t, seeds[..i + 1], picks, r)
               == q.(created := AddCount(q.created, policy.kind, |Put(u, s, picks(i))| - |u|),
                     updated := AddCount(q.updated, policy.kind, Updates(policy, u, s, picks(i))),
                     conflicts := q.conflicts + Clash(policy, u, s, picks(i)))
  {
    hide Put, Updates, Clash, AddCount;
    var upTo, s := seeds[..i + 1], seeds[i];
    assert upTo[..|upTo| - 1] == seeds[..i] && upTo[|upTo| - 1] == s;
    var u := PutAll(t, seeds[..i], picks);
    PutAllKeys(t, seeds[..i], picks);
    PutKeys(u, s, picks(i));
    AddCountTwice(r.created, policy.kind, |u| - |t|, |Put(u, s, picks(i))| - |u|);
    AddCountTwice(r.updated, policy.kind, AllUpdates(policy, t, seeds[..i], picks), Updates(policy, u, s, picks(i)));
    assert r.conflicts + (Clashes(policy, t, seeds[..i], picks) + Clash(policy, u, s, picks(i)))
           == r.conflicts + Clashes(policy, t, seeds[..i], picks) + Clash(policy, u, s, picks(i));
  }

  lemma {:induction false} NoStarters(p: Package, workflows: seq<Workflow>, project: nat)
    ensures PutStarters(p, workflows, project, []) == StartersOut(workflows, [])
  {
  }

  lemma {:induction false} NoAgents(p: Package, project: nat, db: Db, r: Report)
    ensures var o := PutAgents(p, db.agents, db.capabilities, project, []);
            o == AgentsOut(db.agents, db.capabilities, map[], 0) && AgentsReport(db, o, r) == r
  {
  }

  lemma {:induction false} PutStartersStep(p: Package, workflows: seq<Workflow>, project: nat,
                                           starters: seq<StarterType>, i: nat)
    requires i < |starters|
    ensures var o := PutStarters(p, workflows, project, starters[..i]);
            var f := PutStarter(p, o.workflows, project, starters[i]);
            PutStarters(p, workflows, project, starters[..i + 1])
            == StartersOut(f.rows, SetEntry(o.entries, Entry(starters[i], f.id)))
  {
    hide PutStarter, SetEntry;
    var upTo := starters[..i + 1];
    assert upTo[..|upTo| - 1] == starters[..i] && upTo[|upTo| - 1] == starters[i];
  }

  lemma {:induction false} PutAgentsStep(p: Package, db: Db, project: nat, seeds: seq<AgentSeed>, i: nat, r: Report)
    requires i < |seeds|
    ensures var o := PutAgents(p, db.agents, db.capabilities, project, seeds[..i]);
            var o' := PutAgents(p, db.agents, db.capabilities, project, seeds[..i + 1]);
            var q, f := AgentsReport(db, o, r), PutAgent(p, o.agents, seeds[i], project);
            && o'.agents == f.rows
            && o'.capabilities == AddAll(o.capabilities, Policies(p, f.id, seeds[i]))
            && o'.byKey == o.byKey[seeds[i].key := f.id]
            && AgentsReport(db, o', r)
               == q.(created := AddCount(AddCount(q.created, Agents, |f.rows| - |o.agents|),
                                         Capabilities, |o'.capabilities| - |o.capabilities|),
                     restored := AddCount(q.restored, Agents, if |f.rows| == |o.agents| then 1 else 0))
  {
    hide PutAgent, AddAll, Policies, AddCount;
    var upTo := seeds[..i + 1];
    assert upTo[..|upTo| - 1] == seeds[..i] && upTo[|upTo| - 1] == seeds[i];
    var o := PutAgents(p, db.agents, db.capabilities, project, seeds[..i]);
    var o' := PutAgents(p, db.agents, db.capabilities, project, upTo);
    var a, c := |o.agents| - |db.agents|, |o.capabilities| - |db.capabilities|;
    var more := if |o'.agents| == |o.agents| then 1 else 0;
    CountsCommute(r.created, Agents, a, |o'.agents| - |o.agents|, Capabilities, c,
        |o'.capabilities| - |o.capabilities|);
    AddCountTwice(r.restored, Agents, o.restored, more);
  }

  lemma {:induction false} CountsCommute(m: map<Kind, nat>, k: Kind, a: nat, a': nat, l: Kind, b: nat, b': nat)
    requires k != l
    ensures AddCount(AddCount(AddCount(AddCount(m, k, a), l, b), k, a'), l, b')
        == AddCount(AddCount(m, k, a + a'), l, b + b')
  {
    var x := AddCount(m, k, a);
    assert AddCount(AddCount(x, l, b), k, a') == AddCount(AddCount(x, k, a'), l, b);
    AddCountTwice(m, k, a, a');
    AddCountTwice(AddCount(x, k, a'), l, b, b');
  }

  // ---------------------------------------------------------------- the algorithm

  /** The loop over the seeds of a table whose rows have an owner. */
  method EnsureOwned<K(==), V(==)>(policy: Policy, table: seq<Owned<K, V>>, seeds: seq<Seed<K, V>>, picks: Picks,
                                   report: Report)
    returns (t: seq<Owned<K, V>>, r: Report)
    ensures t == PutAll(table, seeds, picks)
    ensures r == PutReport(policy, table, seeds, picks, report)
  {
    hide PutAll, PutReport;
    t, r := table, report;
    PutNone(policy, table, picks, report);
    assert seeds[..0] == [];
    for i := 0 to |seeds|
      invariant t == PutAll(table, seeds[..i], picks)
      invariant r == PutReport(policy, table, seeds[..i], picks, report)
    {
      var s := seeds[i];
      PutReportStep(policy, table, seeds, picks, i, report);
      var existing := Pick(t, s.key, picks(i));
      if existing.None? {
        t := t + [Owned(s.key, true, s.value)];
        r := r.(created := AddCount(r.created, policy.kind, 1));
      } else if t[existing.value].system {
        if policy.refreshAlways || t[existing.value].value != s.value {
          r := r.(updated := AddCount(r.updated, policy.kind, 1));
        }
        t := Overwritten(t, s.key, s.value);
      } else if policy.conflictAlways || t[existing.value].value != s.value {
        r := r.(conflicts := r.conflicts + [Conflict(policy.kind, s.caption)]);
      }
    }
    assert seeds[..|seeds|] == seeds;
  }

  /** The loop over rows that are inserted unless their key is taken. */
  method EnsureRows<K(==), V>(kind: Kind, table: seq<Keyed<K, V>>, rows: seq<Keyed<K, V>>, report: Report)
    returns (t: seq<Keyed<K, V>>, r: Report)
    ensures t == AddAll(table, rows)
    ensures r == AddReport(kind, |table|, |t|, report)
  {
    t, r := table, report;
    for i := 0 to |rows|
      invariant t == AddAll(table, rows[..i])
      invariant r == AddReport(kind, |table|, |t|, report)
    {
      assert rows[..i + 1][..i] == rows[..i];
      if !Has(t, rows[i].key) {
        t := t + [rows[i]];
        r := r.(created := AddCount(r.created, kind, 1));
      }
    }
    assert rows[..|rows|] == rows;
  }

  class Installer {
    var db: Db
    var report: Report

    constructor (db: Db)
      ensures this.db == db && report == EMPTY_REPORT
    {
      this.db, report := db, EMPTY_REPORT;
    }

    method EnsureTypes(p: Package, scan: Scan)
      modifies this
      ensures Applied(db, report) == ApplyTypes(p, old(db), scan, old(report))
    {
      var skills, types, schemas, taskTypes, outcomes;
      skills, report := EnsureOwned(Policy(Skills, false, false), db.skills, p.skills, scan.skills, report);
      types, report := EnsureOwned(Policy(WorkflowTypes, true, false), db.types, p.types, scan.types, report);
      schemas, report := EnsureOwned(Policy(FieldSchemas, true, false), db.schemas, p.schemas, scan.schemas, report);
      taskTypes, report := EnsureRows(TaskTypes, db.taskTypes, TaskTypeRows(p, p.taskTypes), report);
      outcomes, report := EnsureOwned(Policy(Outcomes, true, true), db.outcomes, p.outcomes, scan.outcomes, report);
      db := db.(skills := skills, types := types, schemas := schemas, taskTypes := taskTypes, outcomes := outcomes);
    }

    method EnsureProject(p: Package) returns (project: nat)
      modifies this
      ensures var f := PutProject(p, old(db.projects)); db == old(db).(projects := f.rows) && project == f.id
      ensures report == ProjectReport(p, old(db.projects), old(report))
    {
      var existing := First(db.projects, NamedProject(p, PROJECT_NAME));
      if existing.Some? { return existing.value; }
      var legacy := First(db.projects, NamedProject(p, LEGACY_PROJECT_NAME));
      if legacy.Some? {
        db := db.(projects := db.projects[legacy.value := RestoredProject(db.projects[legacy.value])]);
        report := report.(restored := AddCount(report.restored, Projects, 1));
        return legacy.value;
      }
      project := |db.projects|;
      db := db.(projects := db.projects
                  + [Project(Some(p.tenant), PROJECT_NAME, Some(PROJECT_DESCRIPTION),
                      "Starter workspace for this tenant.")]);
      report := report.(created := AddCount(report.created, Projects, 1));
    }

    /** Answers the workflow that `at` found, or inserts one. */
    method EnsureWorkflow(p: Package, project: nat, t: StarterType, at: Option<nat>) returns (id: nat)
      modifies this
      ensures var f := FoundOr(old(db.workflows), at, NewWorkflow(p, project, t));
              db == old(db).(workflows := f.rows) && id == f.id
      ensures report == AddReport(Workflows, |old(db.workflows)|, |db.workflows|, old(report))
    {
      if at.Some? { return at.value; }
      id := |db.workflows|;
      db := db.(workflows := db.workflows + [NewWorkflow(p, project, t)]);
      report := report.(created := AddCount(report.created, Workflows, 1));
    }

    method EnsureStarterWorkflows(p: Package, project: nat) returns (entries: seq<Entry>)
      modifies this
      ensures var o := PutStarters(p, old(db.workflows), project, p.starters);
              db == old(db).(workflows := o.workflows) && entries == o.entries
      ensures report == AddReport(Workflows, |old(db.workflows)|, |db.workflows|, old(report))
    {
      entries := [];
      hide PutStarters, FindStarter, AddCount, SetEntry;
      assert p.starters[..0] == [];
      AddCountTwice(report.created, Workflows, 0, 0);
      assert PutStarters(p, db.workflows, project, [])
          == StartersOut(db.workflows, []) by { NoStarters(p, db.workflows, project); }
      for i := 0 to |p.starters|
        invariant var o := PutStarters(p, old(db.workflows), project, p.starters[..i]);
                  db == old(db).(workflows := o.workflows) && entries == o.entries
        invariant report == AddReport(Workflows, |old(db.workflows)|, |db.workflows|, old(report))
      {
        var t := p.starters[i];
        PutStartersStep(p, old(db.workflows), project, p.starters, i);
        ghost var before := |db.workflows|;
        var id := EnsureWorkflow(p, project, t, FindStarter(p, db.workflows, project, t));
        AddCountTwice(old(report).created, Workflows, before - |old(db.workflows)|, |db.workflows| - before);
        entries := SetEntry(entries, Entry(t, id));
      }
      assert p.starters[..|p.starters|] == p.starters;
    }

    /** The backlog, then the starter workflows; the backlog has the last word on the generic type. */
    method EnsureWorkflows(p: Package, project: nat) returns (entries: seq<Entry>)
      modifies this
      ensures var o := PutWorkflows(p, old(db.workflows), project);
              db == old(db).(workflows := o.workflows) && entries == o.entries
      ensures report == AddReport(Workflows, |old(db.workflows)|, |db.workflows|, old(report))
    {
      hide FindBacklog, PutStarters, SetEntry, AddCount;
      var backlog := EnsureWorkflow(p, project, Generic, FindBacklog(p, db.workflows, project));
      ghost var between := |db.workflows|;
      entries := EnsureStarterWorkflows(p, project);
      AddCountTwice(old(report).created, Workflows, between - |old(db.workflows)|, |db.workflows| - between);
      entries := SetEntry(entries, Entry(Generic, backlog));
    }

    method EnsureAgent(p: Package, project: nat, s: AgentSeed) returns (id: nat)
      modifies this
      ensures var f := PutAgent(p, old(db.agents), s, project); db == old(db).(agents := f.rows) && id == f.id
      ensures var more := |db.agents| - |old(db.agents)|;
              report == old(report).(created := AddCount(old(report).created, Agents, more),
                                     restored := AddCount(old(report).restored, Agents, if more == 0 then 1 else 0))
    {
      var existing := FindAgent(p, db.agents, s);
      if existing.Some? {
        db := db.(agents := db.agents[existing.value := Fill(db.agents[existing.value], s, project)]);
        report := report.(restored := AddCount(report.restored, Agents, 1));
        return existing.value;
      }
      id := |db.agents|;
      db := db.(agents := db.agents + [NewAgent(p, s, project)]);
      report := report.(created := AddCount(report.created, Agents, 1));
    }

    method EnsureAgents(p: Package, project: nat) returns (byKey: map<AgentKey, nat>)
      modifies this
      ensures var o := PutAgents(p, old(db.agents), old(db.capabilities), project, p.agents);
              && db == old(db).(agents := o.agents, capabilities := o.capabilities) && byKey == o.byKey
              && report == AgentsReport(old(db), o, old(report))
    {
      hide PutAgents, AgentsReport, PutAgent, Policies, AddCount;
      byKey := map[];
      assert p.agents[..0] == [];
      NoAgents(p, project, db, report);
      for i := 0 to |p.agents|
        invariant var o := PutAgents(p, old(db.agents), old(db.capabilities), project, p.agents[..i]);
                  && db == old(db).(agents := o.agents, capabilities := o.capabilities) && byKey == o.byKey
                  && report == AgentsReport(old(db), o, old(report))
      {
        var s := p.agents[i];
        PutAgentsStep(p, old(db), project, p.agents, i, old(report));
        var id := EnsureAgent(p, project, s);
        byKey := byKey[s.key := id];
        var capabilities;
        capabilities, report := EnsureRows(Capabilities, db.capabilities, Policies(p, id, s), report);
        db := db.(capabilities := capabilities);
      }
      assert p.agents[..|p.agents|] == p.agents;
    }

    /** `applyDefaultInstallPackage`. */
    method ApplyPackage(p: Package, scan: Scan)
      requires Cast(p) && report == EMPTY_REPORT
      modifies this
      ensures Applied(db, report) == Apply(p, old(db), scan)
    {
      EnsureTypes(p, scan);
      EnsureRest(p);
    }

    method EnsureRest(p: Package)
      requires Cast(p)
      modifies this
      ensures Applied(db, report) == ApplyRest(p, old(db), old(report))
    {
      hide PutProject, ProjectReport, PutWorkflows, PutAgents, RoutingRows, TransitionRows, ModelRows, AddCount, AddAll;
      var project := EnsureProject(p);
      var entries := EnsureWorkflows(p, project);
      CastIsStaffed(p, db.agents, db.capabilities, project);
      var byKey := EnsureAgents(p, project);
      var routing, transitions, models;
      routing, report := EnsureRows(RoutingRules, db.routing, RoutingRows(p, project, byKey), report);
      transitions, report := EnsureRows(Transitions, db.transitions, TransitionRows(p, db.workflows, entries), report);
      models, report := EnsureRows(ModelRouting, db.models, ModelRows(p, project), report);
      db := db.(routing := routing, transitions := transitions, models := models);
      assert db == ApplyRest(p, old(db), old(report)).db;
      assert report == ApplyRest(p, old(db), old(report)).report;
    }
  }
}
