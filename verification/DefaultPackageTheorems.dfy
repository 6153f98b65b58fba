/** What applying the default package keeps, and that applying it again changes nothing. */
module DefaultPackageTheorems {
  import opened Wrappers
  import opened OwnedTables
  import opened DefaultPackage

  // ---------------------------------------------------------------- conflicts

  ghost predicate TwoOfTenant<K, V>(t: seq<Owned<K, V>>, seeds: seq<Seed<K, V>>, i: nat, j: nat)
    requires i < |t| && j < |t|
  {
    t[i].key == t[j].key && LastValue(seeds, t[i].key).Some? && !t[i].system
  }

  /** No seeded key is contested, and the tenant's rows of one seeded key have one value. */
  ghost predicate Agreed<K, V>(t: seq<Owned<K, V>>, seeds: seq<Seed<K, V>>) {
    && !Contested(t, seeds)
    && (forall i, j :: 0 <= i < |t| && 0 <= j < |t| && TwoOfTenant(t, seeds, i, j) ==> t[i].value == t[j].value)
  }

  lemma {:induction false} UniqueKeysAgree<K, V>(t: seq<Owned<K, V>>, seeds: seq<Seed<K, V>>)
    requires KeysUnique(t)
    ensures Agreed(t, seeds)
  {
    UniqueKeysProtect(t, seeds, Always(0));
    forall i, j | 0 <= i < |t| && 0 <= j < |t| && i != j ensures t[i].key != t[j].key {
    }
  }

  /** The conflicts as read off the table before the package is applied. */
  function Standing<K(==), V(==)>(policy: Policy, t: seq<Owned<K, V>>, seeds: seq<Seed<K, V>>): seq<Conflict> {
    if seeds == [] then []
    else Standing(policy, t, seeds[..|seeds| - 1]) + Clash(policy, t, seeds[|seeds| - 1], 0)
  }

  /** A conflict is the same whichever row the database yields, before or during the application. */
  lemma {:induction false} ClashIsStable<K, V>(policy: Policy, t: seq<Owned<K, V>>, seeds: seq<Seed<K, V>>, n: nat,
                                               picks: Picks, hint: nat, s: Seed<K, V>)
    requires n <= |seeds| && Agreed(t, seeds) && LastValue(seeds, s.key).Some?
    ensures Clash(policy, PutAll(t, seeds[..n], picks), s, hint) == Clash(policy, t, s, 0)
  {
    PrefixUncontested(t, seeds, n);
    PutAllSettles(t, seeds[..n], picks);
    PutAllKeys(t, seeds[..n], picks);
    var u := PutAll(t, seeds[..n], picks);
    var at, before := Pick(u, s.key, hint), Pick(t, s.key, 0);
    if before.Some? {
      assert HasKey(t, s.key) && HasKey(u, s.key);
      assert at.Some? && at.value < |t|;
      assert u[at.value] == Settle(seeds[..n], t[at.value]);
      assert !SharedKey(t, seeds, at.value, before.value) && !SharedKey(t, seeds, before.value, at.value);
      assert !t[at.value].system ==> TwoOfTenant(t, seeds, at.value, before.value);
    } else {
      forall i | 0 <= i < |t| ensures u[i].key != s.key {
        assert u[i].key == t[i].key;
      }
    }
  }

  lemma {:induction false} PrefixUncontested<K, V>(t: seq<Owned<K, V>>, seeds: seq<Seed<K, V>>, n: nat)
    requires n <= |seeds| && !Contested(t, seeds)
    ensures !Contested(t, seeds[..n])
  {
    forall i, j | 0 <= i < |t| && 0 <= j < |t| ensures !SharedKey(t, seeds[..n], i, j) {
      LastValueIsSeeded(seeds, t[i].key);
      LastValueIsSeeded(seeds[..n], t[i].key);
      assert forall k :: 0 <= k < n ==> seeds[..n][k] == seeds[k];
      assert !SharedKey(t, seeds, i, j);
    }
  }

  lemma {:induction false} ClashesStand<K, V>(policy: Policy, t: seq<Owned<K, V>>, seeds: seq<Seed<K, V>>, n: nat,
                                              picks: Picks)
    requires n <= |seeds| && Agreed(t, seeds)
    ensures Clashes(policy, t, seeds[..n], picks) == Standing(policy, t, seeds[..n])
  {
    hide Clash, Agreed, PutAll;
    if n == 0 {
    } else {
      assert seeds[..n][..n - 1] == seeds[..n - 1];
      ClashesStand(policy, t, seeds, n - 1, picks);
      LastValueIsSeeded(seeds, seeds[n - 1].key);
      ClashIsStable(policy, t, seeds, n - 1, picks, picks(n - 1), seeds[n - 1]);
    }
  }

  lemma {:induction false} StandingAfter<K, V>(policy: Policy, t: seq<Owned<K, V>>, seeds: seq<Seed<K, V>>, n: nat,
                                               picks: Picks)
    requires n <= |seeds| && Agreed(t, seeds)
    ensures Standing(policy, PutAll(t, seeds, picks), seeds[..n]) == Standing(policy, t, seeds[..n])
  {
    hide Clash, Agreed, PutAll;
    if n == 0 {
    } else {
      assert seeds[..n][..n - 1] == seeds[..n - 1] && seeds[..|seeds|] == seeds;
      StandingAfter(policy, t, seeds, n - 1, picks);
      LastValueIsSeeded(seeds, seeds[n - 1].key);
      ClashIsStable(policy, t, seeds, |seeds|, picks, 0, seeds[n - 1]);
    }
  }

  lemma {:induction false} AgreedAfter<K, V>(t: seq<Owned<K, V>>, seeds: seq<Seed<K, V>>, picks: Picks)
    requires Agreed(t, seeds)
    ensures Agreed(PutAll(t, seeds, picks), seeds)
  {
    var t' := PutAll(t, seeds, picks);
    PutAllSettles(t, seeds, picks);
    SettledUncontested(t, seeds, t');
    forall i, j | 0 <= i < |t'| && 0 <= j < |t'| && TwoOfTenant(t', seeds, i, j)
      ensures t'[i].value == t'[j].value
    {
      assert !SharedKey(t', seeds, i, j);
      assert i < |t| && j < |t|;
      assert t'[i] == Settle(seeds, t[i]) && t'[j] == Settle(seeds, t[j]);
      assert TwoOfTenant(t, seeds, i, j);
    }
  }

  /** Applying the same seeds again reports the same conflicts, whatever the database yields. */
  lemma {:induction false} ClashesTwice<K, V>(policy: Policy, t: seq<Owned<K, V>>, seeds: seq<Seed<K, V>>, picks: Picks,
                                              picks': Picks)
    requires Agreed(t, seeds)
    ensures Clashes(policy, PutAll(t, seeds, picks), seeds, picks') == Clashes(policy, t, seeds, picks)
  {
    hide Clashes, Standing, Agreed, PutAll;
    assert seeds[..|seeds|] == seeds;
    AgreedAfter(t, seeds, picks);
    ClashesStand(policy, t, seeds, |seeds|, picks);
    ClashesStand(policy, PutAll(t, seeds, picks), seeds, |seeds|, picks');
    StandingAfter(policy, t, seeds, |seeds|, picks);
  }

  /** A tenant's outcome is reported as differing even when it does not. */
  lemma {:induction false} EqualOutcomeIsReported(t: seq<Owned<OutcomeKey, Outcome>>, s: Seed<OutcomeKey, Outcome>,
                                                  hint: nat)
    requires Pick(t, s.key, hint) == Some(hint) && t[hint] == Owned(s.key, false, s.value)
    ensures forall r :: PutReport(Policy(Outcomes, true, true), t, [s], Always(hint), r).conflicts
                        == r.conflicts + [Conflict(Outcomes, s.caption)]
    ensures PutAll(t, [s], Always(hint)) == t
  {
    assert [s][..0] == [];
    assert PutAll(t, [], Always(hint)) == t;
    assert PutAll(t, [s], Always(hint)) == Put(t, s, hint);
    assert Clashes(Policy(Outcomes, true, true), t, [], Always(hint)) == [];
    assert Clashes(Policy(Outcomes, true, true), t, [s], Always(hint))
        == [] + Clash(Policy(Outcomes, true, true), t, s, hint);
  }

  // ---------------------------------------------------------------- rows that are only added

  ghost predicate HasAll<K, V>(t: seq<Keyed<K, V>>, rows: seq<Keyed<K, V>>) {
    forall i :: 0 <= i < |rows| ==> Has(t, rows[i].key)
  }

  lemma {:induction false} StillHas<K, V>(t: seq<Keyed<K, V>>, rows: seq<Keyed<K, V>>, k: K)
    requires Has(t, k)
    ensures Has(AddAll(t, rows), k)
  {
    var i :| 0 <= i < |t| && t[i].key == k;
    assert AddAll(t, rows)[..|t|][i] == t[i];
  }

  lemma {:induction false} AddAllHas<K, V>(t: seq<Keyed<K, V>>, rows: seq<Keyed<K, V>>)
    ensures HasAll(AddAll(t, rows), rows)
  {
    if rows == [] {
    } else {
      var n := |rows| - 1;
      var u, t' := AddAll(t, rows[..n]), AddAll(t, rows);
      AddAllHas(t, rows[..n]);
      assert t' == Add(u, rows[n]);
      forall i | 0 <= i < |rows| ensures Has(t', rows[i].key) {
        if i < n {
          assert Has(u, rows[..n][i].key);
          var j :| 0 <= j < |u| && u[j].key == rows[i].key;
          assert t'[j] == u[j];
        } else if !Has(u, rows[n].key) {
          assert t'[|u|] == rows[n];
        }
      }
    }
  }

  lemma {:induction false} AddAllFixed<K, V>(t: seq<Keyed<K, V>>, rows: seq<Keyed<K, V>>)
    requires HasAll(t, rows)
    ensures AddAll(t, rows) == t
  {
    if rows == [] {
    } else {
      var n := |rows| - 1;
      assert forall i :: 0 <= i < n ==> rows[..n][i] == rows[i];
      AddAllFixed(t, rows[..n]);
    }
  }

  lemma {:induction false} AddAllTwice<K, V>(t: seq<Keyed<K, V>>, rows: seq<Keyed<K, V>>)
    ensures AddAll(AddAll(t, rows), rows) == AddAll(t, rows)
  {
    AddAllHas(t, rows);
    AddAllFixed(AddAll(t, rows), rows);
  }

  // ---------------------------------------------------------------- project and workflows

  lemma {:induction false} ProjectTwice(p: Package, projects: seq<Project>, r: Report)
    ensures var f := PutProject(p, projects);
            PutProject(p, f.rows) == f && ProjectReport(p, f.rows, r) == r
  {
    var f := PutProject(p, projects);
    assert NamedProject(p, PROJECT_NAME)(f.rows[f.id]);
    assert forall j :: 0 <= j < f.id ==> f.rows[j] == projects[j];
    assert forall j :: 0 <= j < f.id ==> !NamedProject(p, PROJECT_NAME)(f.rows[j]);
  }

  /** Of the names that starter workflows get, only the generic one reads as the backlog's. */
  ghost predicate NamesDiffer(p: Package) {
    forall t :: p.lower(WorkflowName(t)) == p.lower(BACKLOG_NAME) ==> t == Generic
  }

  /** What a lookup answers once a row is appended. */
  lemma {:induction false} BestOfAppended<T>(s: seq<T>, x: T, fits: T -> bool, preferred: T -> bool)
    ensures var was, any := First(s, Both(fits, preferred)), First(s, fits);
            Best(s + [x], fits, preferred)
            == if was.Some? then was else if fits(x) && preferred(x) then Some(|s|)
               else if any.Some? then any else if fits(x) then Some(|s|) else None
  {
    FirstOfAppended(s, x, Both(fits, preferred));
    FirstOfAppended(s, x, fits);
  }

  lemma {:induction false} FirstOfAppended<T>(s: seq<T>, x: T, p: T -> bool)
    ensures First(s + [x], p) == if First(s, p).Some? then First(s, p) else if p(x) then Some(|s|) else None
  {
    assert (s + [x])[..|s|] == s;
  }

  lemma {:induction false} BacklogIsFound(p: Package, workflows: seq<Workflow>, project: nat)
    ensures var f := PutBacklog(p, workflows, project); FindBacklog(p, f.rows, project) == Some(f.id)
  {
    if FindBacklog(p, workflows, project).None? {
      BestOfAppended(workflows, NewWorkflow(p, project, Generic), BacklogFits(p, project), Bears(p, Generic));
    }
  }

  lemma {:induction false} BacklogStays(p: Package, workflows: seq<Workflow>, project: nat, t: StarterType)
    requires NamesDiffer(p) && FindBacklog(p, workflows, project).Some?
    ensures FindBacklog(p, PutStarter(p, workflows, project, t).rows, project) == FindBacklog(p, workflows, project)
  {
    if FindStarter(p, workflows, project, t).None? {
      BestOfAppended(workflows, NewWorkflow(p, project, t), BacklogFits(p, project), Bears(p, Generic));
      var b := FindBacklog(p, workflows, project).value;
      assert BacklogFits(p, project)(workflows[b]) && !StarterFits(p, project, t)(workflows[b]);
    }
  }

  lemma {:induction false} StarterIsFound(p: Package, workflows: seq<Workflow>, project: nat, t: StarterType)
    ensures var f := PutStarter(p, workflows, project, t); FindStarter(p, f.rows, project, t) == Some(f.id)
  {
    if FindStarter(p, workflows, project, t).None? {
      BestOfAppended(workflows, NewWorkflow(p, project, t), StarterFits(p, project, t), Bears(p, t));
    }
  }

  lemma {:induction false} StarterStays(p: Package, workflows: seq<Workflow>, project: nat, t: StarterType,
                                        other: StarterType)
    requires FindStarter(p, workflows, project, t).Some?
    ensures FindStarter(p, PutStarter(p, workflows, project, other).rows, project, t)
        == FindStarter(p, workflows, project, t)
  {
    if FindStarter(p, workflows, project, other).None? {
      BestOfAppended(workflows, NewWorkflow(p, project, other), StarterFits(p, project, t), Bears(p, t));
      assert TypeText(other) == TypeText(t) ==> other == t;
    }
  }

  lemma {:induction false} BacklogSurvives(p: Package, workflows: seq<Workflow>, project: nat,
                                           starters: seq<StarterType>)
    requires NamesDiffer(p) && FindBacklog(p, workflows, project).Some?
    ensures FindBacklog(p, PutStarters(p, workflows, project, starters).workflows, project)
        == FindBacklog(p, workflows, project)
  {
    hide FindBacklog;
    if starters == [] {
    } else {
      var n := |starters| - 1;
      BacklogSurvives(p, workflows, project, starters[..n]);
      BacklogStays(p, PutStarters(p, workflows, project, starters[..n]).workflows, project, starters[n]);
    }
  }

  /** The workflow that a starter type was given is the one found for it afterwards. */
  lemma {:induction false} StarterSurvives(p: Package, workflows: seq<Workflow>, project: nat,
                                           starters: seq<StarterType>, i: nat)
    requires i < |starters|
    ensures FindStarter(p, PutStarters(p, workflows, project, starters).workflows, project, starters[i])
            == Some(PutStarter(p, PutStarters(p, workflows, project, starters[..i]).workflows, project, starters[i]).id)
  {
    hide FindStarter;
    var n := |starters| - 1;
    var before := PutStarters(p, workflows, project, starters[..n]).workflows;
    if i == n {
      StarterIsFound(p, before, project, starters[n]);
    } else {
      assert starters[..n][..i] == starters[..i];
      StarterSurvives(p, workflows, project, starters[..n], i);
      StarterStays(p, before, project, starters[i], starters[n]);
    }
  }

  /** The starters up to `i`, looked up after all of them are there. */
  lemma {:induction false} StartersTwice(p: Package, workflows: seq<Workflow>, project: nat, starters: seq<StarterType>,
                                         i: nat)
    requires i <= |starters|
    ensures var all := PutStarters(p, workflows, project, starters);
            PutStarters(p, all.workflows, project, starters[..i])
            == StartersOut(all.workflows, PutStarters(p, workflows, project, starters[..i]).entries)
  {
    hide FindStarter, SetEntry, PutStarters;
    var all := PutStarters(p, workflows, project, starters);
    if i == 0 {
      assert starters[..0] == [];
      NoStarters(p, workflows, project);
      NoStarters(p, all.workflows, project);
    } else {
      StartersTwice(p, workflows, project, starters, i - 1);
      StarterSurvives(p, workflows, project, starters, i - 1);
      PutStartersStep(p, workflows, project, starters, i - 1);
      PutStartersStep(p, all.workflows, project, starters, i - 1);
    }
  }

  /** Looked up again, every workflow is the one it was. */
  lemma {:induction false} WorkflowsTwice(p: Package, workflows: seq<Workflow>, project: nat)
    requires NamesDiffer(p)
    ensures var o := PutWorkflows(p, workflows, project); PutWorkflows(p, o.workflows, project) == o
  {
    hide FindBacklog, PutStarters, SetEntry;
    var backlog := PutBacklog(p, workflows, project);
    BacklogIsFound(p, workflows, project);
    BacklogSurvives(p, backlog.rows, project, p.starters);
    assert p.starters[..|p.starters|] == p.starters;
    StartersTwice(p, backlog.rows, project, p.starters, |p.starters|);
  }

  // ---------------------------------------------------------------- agents

  /** The texts of a seed are not blank, and an empty skill list has no spaces around it. */
  ghost predicate Complete(s: AgentSeed) {
    && !Blank(Some(s.role)) && !Blank(Some(s.jobTitle)) && !Blank(Some(s.runtimeConfig)) && !Blank(Some(s.runtimeId))
    && !Blank(Some(s.sessionKey)) && !Blank(Some(s.workspacePath)) && !Blank(Some(s.provider))
       && !Blank(Some(s.instructions))
    && (NoSkills(Some(s.skillNames)) ==> s.skillNames == "[]")
  }

  /** No agent that one seed creates or completes answers to the other. */
  ghost predicate Apart(p: Package, s: AgentSeed, other: AgentSeed) {
    && s.systemRole != other.systemRole && s.sessionKey != other.sessionKey
    && s.runtimeId != other.runtimeId && p.lower(s.name) != p.lower(other.name)
  }

  ghost predicate SeedsApart(p: Package, seeds: seq<AgentSeed>) {
    && (forall s :: s in seeds ==> Complete(s))
    && (forall i, j :: 0 <= i < j < |seeds| ==> Apart(p, seeds[i], seeds[j]))
  }

  /** `s` finds agent `id`, which has nothing left to fill in. */
  ghost predicate Holds(p: Package, agents: seq<Agent>, s: AgentSeed, project: nat, id: nat) {
    FindAgent(p, agents, s) == Some(id) && id < |agents| && Fill(agents[id], s, project) == agents[id]
  }

  /** A full column stays full when another text is offered first, and matches a text only if it did. */
  lemma {:induction false} FillTextKeeps(x: Option<string>, text: string, other: string)
    requires !Blank(Some(text)) && !Blank(Some(other))
    ensures FillText(x, text) == x ==> FillText(FillText(x, other), text) == FillText(x, other)
    ensures text != other ==> (FillText(x, other) == Some(text)) == (x == Some(text))
  {
    hide Trim;
  }

  lemma {:induction false} FillSkillsKeeps(x: Option<string>, text: string, other: string)
    requires (NoSkills(Some(text)) ==> text == "[]") && (NoSkills(Some(other)) ==> other == "[]")
    ensures FillSkills(x, text) == x ==> FillSkills(FillSkills(x, other), text) == FillSkills(x, other)
  {
    hide NoSkills;
  }

  lemma {:induction false} FillKeepsAnswers(p: Package, a: Agent, s: AgentSeed, other: AgentSeed, project: nat)
    requires Complete(s) && Complete(other) && Apart(p, s, other)
    ensures var a' := Fill(a, other, project); Answers(p, s)(a') == Answers(p, s)(a) && Plays(s)(a') == Plays(s)(a)
  {
    hide FillText, FillSkills, NoSkills, Blank;
    FillTextKeeps(a.sessionKey, s.sessionKey, other.sessionKey);
    FillTextKeeps(a.runtimeId, s.runtimeId, other.runtimeId);
  }

  lemma {:induction false} FillKeeps(p: Package, a: Agent, s: AgentSeed, other: AgentSeed, project: nat)
    requires Complete(s) && Complete(other) && Fill(a, s, project) == a
    ensures var a' := Fill(a, other, project); Fill(a', s, project) == a'
  {
    hide FillText, FillSkills, NoSkills, Blank;
    FillTextKeeps(a.role, s.role, other.role);
    FillTextKeeps(a.jobTitle, s.jobTitle, other.jobTitle);
    FillTextKeeps(a.runtimeConfig, s.runtimeConfig, other.runtimeConfig);
    FillTextKeeps(a.runtimeId, s.runtimeId, other.runtimeId);
    FillTextKeeps(a.sessionKey, s.sessionKey, other.sessionKey);
    FillTextKeeps(a.workspacePath, s.workspacePath, other.workspacePath);
    FillTextKeeps(a.provider, s.provider, other.provider);
    FillTextKeeps(a.instructions, s.instructions, other.instructions);
    FillSkillsKeeps(a.skillNames, s.skillNames, other.skillNames);
    assert FillText(FillText(a.status, "idle"), "idle")
        == FillText(a.status, "idle") by { FillTwice(a.status, "idle"); }
  }

  lemma {:induction false} FillTwice(x: Option<string>, text: string)
    ensures FillText(FillText(x, text), text) == FillText(x, text)
  {
  }

  lemma {:induction false} FillOnce(p: Package, a: Agent, s: AgentSeed, project: nat)
    requires Complete(s) && Answers(p, s)(a)
    ensures Fill(Fill(a, s, project), s, project) == Fill(a, s, project)
    ensures Answers(p, s)(Fill(a, s, project))
    ensures Plays(s)(Fill(a, s, project)) == (Plays(s)(a) || a.systemRole.None?)
  {
    hide Trim;
  }

  lemma {:induction false} FirstSame<T>(s: seq<T>, s': seq<T>, p: T -> bool)
    requires |s| == |s'| && forall i :: 0 <= i < |s| ==> p(s[i]) == p(s'[i])
    ensures First(s, p) == First(s', p)
  {
  }

  lemma {:induction false} PutAgentHolds(p: Package, agents: seq<Agent>, s: AgentSeed, project: nat)
    requires Complete(s)
    ensures var f := PutAgent(p, agents, s, project); Holds(p, f.rows, s, project, f.id)
  {
    hide Fill, Answers, Plays;
    var f := PutAgent(p, agents, s, project);
    var at := FindAgent(p, agents, s);
    if at.None? {
      NewAgentIsComplete(p, s, project);
      BestOfAppended(agents, NewAgent(p, s, project), Answers(p, s), Plays(s));
    } else {
      FillOnce(p, agents[f.id], s, project);
      FirstSame(agents, f.rows, Answers(p, s));
      if First(agents, Both(Answers(p, s), Plays(s))).Some? {
        assert Both(Answers(p, s), Plays(s))(agents[f.id]);
        FirstSame(agents, f.rows, Both(Answers(p, s), Plays(s)));
      } else {
        assert forall i :: 0 <= i < |agents| && i != f.id ==> !Both(Answers(p, s), Plays(s))(agents[i]);
      }
    }
  }

  lemma {:induction false} NewAgentIsComplete(p: Package, s: AgentSeed, project: nat)
    requires Complete(s)
    ensures var a := NewAgent(p, s, project); Answers(p, s)(a) && Plays(s)(a) && Fill(a, s, project) == a
  {
    hide Trim;
  }

  lemma {:induction false} NewAgentIsApart(p: Package, s: AgentSeed, other: AgentSeed, project: nat)
    requires Apart(p, s, other)
    ensures !Answers(p, s)(NewAgent(p, other, project))
  {
  }

  lemma {:induction false} PutAgentKeeps(p: Package, agents: seq<Agent>, s: AgentSeed, other: AgentSeed, project: nat,
                                         id: nat)
    requires Complete(s) && Complete(other) && Apart(p, s, other) && Holds(p, agents, s, project, id)
    ensures Holds(p, PutAgent(p, agents, other, project).rows, s, project, id)
  {
    hide Fill, Answers, Plays;
    var f := PutAgent(p, agents, other, project);
    if FindAgent(p, agents, other).None? {
      NewAgentIsApart(p, s, other, project);
      BestOfAppended(agents, NewAgent(p, other, project), Answers(p, s), Plays(s));
    } else {
      FillKeepsAnswers(p, agents[f.id], s, other, project);
      FillKeeps(p, agents[id], s, other, project);
      FirstSame(agents, f.rows, Answers(p, s));
      FirstSame(agents, f.rows, Both(Answers(p, s), Plays(s)));
    }
  }

  /** The agent a seed was given is the one it finds afterwards, with nothing left to fill in. */
  lemma {:induction false} AgentSurvives(p: Package, agents: seq<Agent>, c: seq<Keyed<CapabilityKey, bool>>,
                                         project: nat, seeds: seq<AgentSeed>, i: nat)
    requires i < |seeds| && SeedsApart(p, seeds)
    ensures Holds(p, PutAgents(p, agents, c, project, seeds).agents, seeds[i], project,
                  PutAgent(p, PutAgents(p, agents, c, project, seeds[..i]).agents, seeds[i], project).id)
  {
    hide Holds, PutAgent, Complete;
    var n := |seeds| - 1;
    var before := PutAgents(p, agents, c, project, seeds[..n]).agents;
    if i == n {
      PutAgentHolds(p, before, seeds[n], project);
    } else {
      assert seeds[..n][..i] == seeds[..i];
      AgentSurvives(p, agents, c, project, seeds[..n], i);
      PutAgentKeeps(p, before, seeds[i], seeds[n], project,
          PutAgent(p, PutAgents(p, agents, c, project, seeds[..i]).agents, seeds[i], project).id);
    }
  }

  lemma {:induction false} PoliciesSurvive(p: Package, agents: seq<Agent>, c: seq<Keyed<CapabilityKey, bool>>,
                                           project: nat, seeds: seq<AgentSeed>, i: nat)
    requires i < |seeds|
    ensures var id := PutAgent(p, PutAgents(p, agents, c, project, seeds[..i]).agents, seeds[i], project).id;
            HasAll(PutAgents(p, agents, c, project, seeds).capabilities, Policies(p, id, seeds[i]))
  {
    hide PutAgent, Policies, AddAll;
    var n := |seeds| - 1;
    var o := PutAgents(p, agents, c, project, seeds[..n]);
    var f := PutAgent(p, o.agents, seeds[n], project);
    if i == n {
      AddAllHas(o.capabilities, Policies(p, f.id, seeds[n]));
    } else {
      assert seeds[..n][..i] == seeds[..i];
      PoliciesSurvive(p, agents, c, project, seeds[..n], i);
      var rows := Policies(p, PutAgent(p, PutAgents(p, agents, c, project, seeds[..i]).agents, seeds[i], project).id,
          seeds[i]);
      forall j | 0 <= j < |rows| ensures Has(AddAll(o.capabilities, Policies(p, f.id, seeds[n])), rows[j].key) {
        StillHas(o.capabilities, Policies(p, f.id, seeds[n]), rows[j].key);
      }
    }
  }

  lemma {:induction false} AgentsTwice(p: Package, agents: seq<Agent>, c: seq<Keyed<CapabilityKey, bool>>, project: nat,
                                       seeds: seq<AgentSeed>, i: nat)
    requires i <= |seeds| && SeedsApart(p, seeds)
    ensures var all, part := PutAgents(p, agents, c, project, seeds), PutAgents(p, agents, c, project, seeds[..i]);
            PutAgents(p, all.agents, all.capabilities, project, seeds[..i])
            == AgentsOut(all.agents, all.capabilities, part.byKey, i)
  {
    hide Fill, FindAgent, Policies, AddAll, Complete, Apart;
    var all := PutAgents(p, agents, c, project, seeds);
    if i == 0 {
    } else {
      var s, before := seeds[i - 1], seeds[..i - 1];
      assert seeds[..i][..i - 1] == before;
      AgentsTwice(p, agents, c, project, seeds, i - 1);
      AgentSurvives(p, agents, c, project, seeds, i - 1);
      PoliciesSurvive(p, agents, c, project, seeds, i - 1);
      var id := PutAgent(p, PutAgents(p, agents, c, project, before).agents, s, project).id;
      AddAllFixed(all.capabilities, Policies(p, id, s));
      assert PutAgent(p, all.agents, s, project) == Found(all.agents, id);
    }
  }

  // ---------------------------------------------------------------- the whole package

  /** No table has a row of the tenant and a row of the package under one seeded key. */
  ghost predicate Uncontested(p: Package, db: Db) {
    && !Contested(db.skills, p.skills) && !Contested(db.types, p.types)
    && !Contested(db.schemas, p.schemas) && !Contested(db.outcomes, p.outcomes)
  }

  ghost predicate TablesAgreed(p: Package, db: Db) {
    && Agreed(db.skills, p.skills) && Agreed(db.types, p.types)
    && Agreed(db.schemas, p.schemas) && Agreed(db.outcomes, p.outcomes)
  }

  /** The tables of `ApplyTypes` hold what it puts there. */
  ghost predicate TypesStand(p: Package, db: Db, scan: Scan) {
    && PutAll(db.skills, p.skills, scan.skills) == db.skills
    && PutAll(db.types, p.types, scan.types) == db.types
    && PutAll(db.schemas, p.schemas, scan.schemas) == db.schemas
    && AddAll(db.taskTypes, TaskTypeRows(p, p.taskTypes)) == db.taskTypes
    && PutAll(db.outcomes, p.outcomes, scan.outcomes) == db.outcomes
  }

  /** The conflicts of the package, as a function of the database it finds. */
  function AllClashes(p: Package, db: Db, scan: Scan): seq<Conflict> {
    Clashes(Policy(Skills, false, false), db.skills, p.skills, scan.skills)
    + Clashes(Policy(WorkflowTypes, true, false), db.types, p.types, scan.types)
    + Clashes(Policy(FieldSchemas, true, false), db.schemas, p.schemas, scan.schemas)
    + Clashes(Policy(Outcomes, true, true), db.outcomes, p.outcomes, scan.outcomes)
  }

  lemma {:induction false} TypesStandAfter(p: Package, db: Db, scan: Scan, scan': Scan)
    requires Uncontested(p, db)
    ensures TypesStand(p, ApplyTypes(p, db, scan, EMPTY_REPORT).db, scan')
  {
    hide PutAll, AddAll, TaskTypeRows, Clashes, AllUpdates, AddCount, Contested;
    PutAllTwice(db.skills, p.skills, scan.skills, scan'.skills);
    PutAllTwice(db.types, p.types, scan.types, scan'.types);
    PutAllTwice(db.schemas, p.schemas, scan.schemas, scan'.schemas);
    PutAllTwice(db.outcomes, p.outcomes, scan.outcomes, scan'.outcomes);
    AddAllTwice(db.taskTypes, TaskTypeRows(p, p.taskTypes));
  }

  lemma {:induction false} ClashesRepeat(p: Package, db: Db, scan: Scan, scan': Scan)
    requires TablesAgreed(p, db)
    ensures AllClashes(p, ApplyTypes(p, db, scan, EMPTY_REPORT).db, scan') == AllClashes(p, db, scan)
  {
    hide PutAll, AddAll, TaskTypeRows, Clashes, AllUpdates, AddCount, Agreed;
    ClashesTwice(Policy(Skills, false, false), db.skills, p.skills, scan.skills, scan'.skills);
    ClashesTwice(Policy(WorkflowTypes, true, false), db.types, p.types, scan.types, scan'.types);
    ClashesTwice(Policy(FieldSchemas, true, false), db.schemas, p.schemas, scan.schemas, scan'.schemas);
    ClashesTwice(Policy(Outcomes, true, true), db.outcomes, p.outcomes, scan.outcomes, scan'.outcomes);
  }

  lemma {:induction false} StandingTypes(p: Package, db: Db, scan: Scan)
    ensures ApplyTypes(p, db, scan, EMPTY_REPORT).report.conflicts == AllClashes(p, db, scan)
    ensures TypesStand(p, db, scan) ==>
              && ApplyTypes(p, db, scan, EMPTY_REPORT).db == db
              && ApplyTypes(p, db, scan, EMPTY_REPORT).report.created == map[]
  {
    hide PutAll, AddAll, TaskTypeRows, Clashes, AllUpdates;
  }

  lemma {:induction false} RestTwice(p: Package, db: Db, r: Report, r': Report)
    requires Cast(p) && NamesDiffer(p) && SeedsApart(p, p.agents)
    ensures var a := ApplyRest(p, db, r);
            var b := ApplyRest(p, a.db, r');
            b.db == a.db && b.report.created == r'.created && b.report.conflicts == r'.conflicts
  {
    hide PutProject, ProjectReport, PutWorkflows, PutAgents, AddAll, RoutingRows, TransitionRows, ModelRows;
    var a := ApplyRest(p, db, r).db;
    ProjectTwice(p, db.projects, r');
    var project := PutProject(p, db.projects).id;
    var o := PutWorkflows(p, db.workflows, project);
    WorkflowsTwice(p, db.workflows, project);
    var agents := PutAgents(p, db.agents, db.capabilities, project, p.agents);
    assert p.agents[..|p.agents|] == p.agents;
    AgentsTwice(p, db.agents, db.capabilities, project, p.agents, |p.agents|);
    CastIsStaffed(p, db.agents, db.capabilities, project);
    AddAllTwice(db.routing, RoutingRows(p, project, agents.byKey));
    AddAllTwice(db.transitions, TransitionRows(p, o.workflows, o.entries));
    AddAllTwice(db.models, ModelRows(p, project));
  }

  /**
   * A second application changes no table and creates nothing, whatever rows the database yields on
   * either occasion, and reports the same conflicts where the tenant's rows of one key agree.
   */
  lemma {:induction false} SecondApplicationChangesNothing(p: Package, db: Db, scan: Scan, scan': Scan)
    requires Cast(p) && NamesDiffer(p) && SeedsApart(p, p.agents) && Uncontested(p, db)
    ensures var a := Apply(p, db, scan);
            var b := Apply(p, a.db, scan');
            && b.db == a.db && b.report.created == map[]
            && (TablesAgreed(p, db) ==> b.report.conflicts == a.report.conflicts)
  {
    hide ApplyTypes, ApplyRest, AllClashes, Uncontested, TablesAgreed;
    var t := ApplyTypes(p, db, scan, EMPTY_REPORT);
    var a := Apply(p, db, scan);
    TypesStandAfter(p, db, scan, scan');
    if TablesAgreed(p, db) { ClashesRepeat(p, db, scan, scan'); }
    StandingTypes(p, db, scan);
    RestKeepsTypes(p, t.db, scan', t.report);
    StandingTypes(p, a.db, scan');
    RestTwice(p, t.db, t.report, ApplyTypes(p, a.db, scan', EMPTY_REPORT).report);
  }

  lemma {:induction false} RestKeepsTypes(p: Package, db: Db, scan: Scan, r: Report)
    requires Cast(p)
    ensures var a := ApplyRest(p, db, r);
            && (TypesStand(p, db, scan) ==> TypesStand(p, a.db, scan))
            && AllClashes(p, a.db, scan) == AllClashes(p, db, scan) && a.report.conflicts == r.conflicts
            && a.db.skills == db.skills && a.db.types == db.types && a.db.schemas == db.schemas
               && a.db.outcomes == db.outcomes
  {
    hide ApplyRest, PutAll, AddAll, TaskTypeRows, Clashes;
    RestFields(p, db, r);
  }

  lemma {:induction false} RestFields(p: Package, db: Db, r: Report)
    requires Cast(p)
    ensures var a := ApplyRest(p, db, r);
            && a.db.skills == db.skills && a.db.types == db.types && a.db.schemas == db.schemas
               && a.db.outcomes == db.outcomes
            && a.db.taskTypes == db.taskTypes && a.report.conflicts == r.conflicts
  {
    hide AddAll, PutAgents, PutWorkflows, PutProject, RoutingRows, TransitionRows, ModelRows;
  }

  lemma {:induction false} OwnedTablesOf(p: Package, db: Db, scan: Scan)
    requires Cast(p)
    ensures var a := Apply(p, db, scan).db;
            && a.skills == PutAll(db.skills, p.skills, scan.skills) && a.types == PutAll(db.types, p.types, scan.types)
            && a.schemas == PutAll(db.schemas, p.schemas, scan.schemas)
            && a.outcomes == PutAll(db.outcomes, p.outcomes, scan.outcomes)
  {
    hide ApplyRest, PutAll, AddAll, TaskTypeRows, Clashes, AllUpdates, AllClashes, TypesStand;
    var t := ApplyTypes(p, db, scan, EMPTY_REPORT);
    RestKeepsTypes(p, t.db, scan, t.report);
  }

  ghost predicate ApplyRepeats(p: Package, db: Db)
    requires Cast(p)
  {
    forall scan, scan' :: Apply(p, Apply(p, db, scan).db, scan').db == Apply(p, db, scan).db
  }

  /** Contested keys are exactly what can make a second application change a table. */
  lemma {:induction false} ApplyRepeatsIff(p: Package, db: Db)
    requires Cast(p) && NamesDiffer(p) && SeedsApart(p, p.agents)
    ensures ApplyRepeats(p, db) <==> Uncontested(p, db)
  {
    hide Apply, SeedsApart, NamesDiffer, Contested, PutAll, Repeatable;
    if Uncontested(p, db) {
      forall scan, scan' ensures Apply(p, Apply(p, db, scan).db, scan').db == Apply(p, db, scan).db {
        SecondApplicationChangesNothing(p, db, scan, scan');
      }
    }
    if ApplyRepeats(p, db) {
      forall scan, scan'
        ensures ScanRepeats(p, db, scan, scan')
      {
        var a := Apply(p, db, scan).db;
        assert Apply(p, a, scan').db == a;
        OwnedTablesOf(p, db, scan);
        OwnedTablesOf(p, a, scan');
      }
      EachRepeats(p, db);
      RepeatableIff(db.skills, p.skills);
      RepeatableIff(db.types, p.types);
      RepeatableIff(db.schemas, p.schemas);
      RepeatableIff(db.outcomes, p.outcomes);
    }
  }

  ghost predicate ScanRepeats(p: Package, db: Db, scan: Scan, scan': Scan) {
    && PutAll(PutAll(db.skills, p.skills, scan.skills), p.skills, scan'.skills)
       == PutAll(db.skills, p.skills, scan.skills)
    && PutAll(PutAll(db.types, p.types, scan.types), p.types, scan'.types) == PutAll(db.types, p.types, scan.types)
    && PutAll(PutAll(db.schemas, p.schemas, scan.schemas), p.schemas, scan'.schemas)
       == PutAll(db.schemas, p.schemas, scan.schemas)
    && PutAll(PutAll(db.outcomes, p.outcomes, scan.outcomes), p.outcomes, scan'.outcomes)
       == PutAll(db.outcomes, p.outcomes, scan.outcomes)
  }

  lemma {:induction false} EachRepeats(p: Package, db: Db)
    requires forall scan, scan' :: ScanRepeats(p, db, scan, scan')
    ensures Repeatable(db.skills, p.skills) && Repeatable(db.types, p.types)
    ensures Repeatable(db.schemas, p.schemas) && Repeatable(db.outcomes, p.outcomes)
  {
    hide PutAll;
    forall x: Picks, y: Picks
      ensures PutAll(PutAll(db.skills, p.skills, x), p.skills, y) == PutAll(db.skills, p.skills, x)
      ensures PutAll(PutAll(db.types, p.types, x), p.types, y) == PutAll(db.types, p.types, x)
      ensures PutAll(PutAll(db.schemas, p.schemas, x), p.schemas, y) == PutAll(db.schemas, p.schemas, x)
      ensures PutAll(PutAll(db.outcomes, p.outcomes, x), p.outcomes, y) == PutAll(db.outcomes, p.outcomes, x)
    {
      assert ScanRepeats(p, db, Scan(x, x, x, x), Scan(y, y, y, y));
    }
  }

  // ---------------------------------------------------------------- what is left alone

  predicate TextKept(column: Option<string>, after: Option<string>) { !Blank(column) ==> after == column }

  predicate ValueKept<T(==)>(column: Option<T>, after: Option<T>) { column.Some? ==> after == column }

  /** Whatever an operator has set on an agent is still set. */
  ghost predicate Extends(a: Agent, a': Agent) {
    && a'.tenant == a.tenant && a'.deleted == a.deleted && a'.name == a.name
    && TextKept(a.role, a'.role) && TextKept(a.jobTitle, a'.jobTitle) && TextKept(a.runtimeConfig, a'.runtimeConfig)
    && TextKept(a.runtimeId, a'.runtimeId) && TextKept(a.sessionKey, a'.sessionKey)
    && TextKept(a.workspacePath, a'.workspacePath) && TextKept(a.provider, a'.provider)
    && TextKept(a.instructions, a'.instructions) && TextKept(a.status, a'.status)
    && (!NoSkills(a.skillNames) ==> a'.skillNames == a.skillNames)
    && ValueKept(a.project, a'.project) && ValueKept(a.systemRole, a'.systemRole)
       && ValueKept(a.runtimeType, a'.runtimeType)
    && ValueKept(a.model, a'.model) && ValueKept(a.enabled, a'.enabled)
  }

  lemma {:induction false} FillExtends(a: Agent, b: Agent, s: AgentSeed, project: nat)
    requires Extends(a, b)
    ensures Extends(a, Fill(b, s, project))
  {
    hide Trim;
  }

  lemma {:induction false} AgentsKept(p: Package, agents: seq<Agent>, c: seq<Keyed<CapabilityKey, bool>>, project: nat,
                                      seeds: seq<AgentSeed>, i: nat)
    requires i < |agents|
    ensures var a' := PutAgents(p, agents, c, project, seeds).agents[i];
            && Extends(agents[i], a')
            && (agents[i].tenant != Some(p.tenant) || agents[i].deleted ==> a' == agents[i])
  {
    hide Fill, Extends, Policies, AddAll;
    if seeds == [] {
      assert Extends(agents[i], agents[i]) by { ExtendsItself(agents[i]); }
    } else {
      var n := |seeds| - 1;
      AgentsKept(p, agents, c, project, seeds[..n], i);
      var o := PutAgents(p, agents, c, project, seeds[..n]);
      assert Extends(agents[i], o.agents[i]) && o.agents[i].tenant == agents[i].tenant
          && o.agents[i].deleted == agents[i].deleted by {
        ExtendsOwner(agents[i], o.agents[i]);
      }
      FillExtends(agents[i], o.agents[i], seeds[n], project);
    }
  }

  lemma {:induction false} ExtendsItself(a: Agent)
    ensures Extends(a, a)
  {
  }

  lemma {:induction false} ExtendsOwner(a: Agent, b: Agent)
    requires Extends(a, b)
    ensures b.tenant == a.tenant && b.deleted == a.deleted
  {
  }

  lemma {:induction false} WorkflowsKept(p: Package, workflows: seq<Workflow>, project: nat, starters: seq<StarterType>)
    ensures workflows <= PutStarters(p, workflows, project, starters).workflows
  {
    hide FindStarter, SetEntry;
    if starters == [] {
    } else {
      WorkflowsKept(p, workflows, project, starters[..|starters| - 1]);
    }
  }

  lemma {:induction false} CapabilitiesKept(p: Package, agents: seq<Agent>, c: seq<Keyed<CapabilityKey, bool>>,
                                            project: nat, seeds: seq<AgentSeed>)
    ensures c <= PutAgents(p, agents, c, project, seeds).capabilities
  {
    hide PutAgent, Policies, AddAll;
    if seeds == [] {
    } else {
      CapabilitiesKept(p, agents, c, project, seeds[..|seeds| - 1]);
    }
  }

  ghost predicate PackageOfTenant(p: Package) {
    && (forall s :: s in p.skills ==> s.key.tenant == p.tenant)
    && (forall s :: s in p.types ==> s.key.tenant == p.tenant)
    && (forall s :: s in p.schemas ==> s.key.tenant == p.tenant)
    && (forall s :: s in p.outcomes ==> s.key.tenant == p.tenant)
  }

  /** Rows of another tenant stay. */
  ghost predicate OthersKept<K, V>(t: seq<Owned<K, V>>, t': seq<Owned<K, V>>, of: K -> nat, tenant: nat) {
    |t| <= |t'| && forall i :: 0 <= i < |t| && of(t[i].key) != tenant ==> t'[i] == t[i]
  }

  lemma {:induction false} PutAllKeepsOthers<K, V>(t: seq<Owned<K, V>>, seeds: seq<Seed<K, V>>, picks: Picks,
                                                   of: K -> nat, tenant: nat)
    requires forall s :: s in seeds ==> of(s.key) == tenant
    ensures OthersKept(t, PutAll(t, seeds, picks), of, tenant)
  {
    PutAllKeys(t, seeds, picks);
    forall i | 0 <= i < |t| && of(t[i].key) != tenant ensures PutAll(t, seeds, picks)[i] == t[i] {
      LastValueIsSeeded(seeds, t[i].key);
      UnseededRowsKept(t, seeds, picks, i);
    }
  }

  function SkillTenant(): SkillKey -> nat { (k: SkillKey) => k.tenant }

  function TypeTenant(): TypeKey -> nat { (k: TypeKey) => k.tenant }

  function OutcomeTenant(): OutcomeKey -> nat { (k: OutcomeKey) => k.tenant }


  /** A project changes only if it is the legacy one, which gets its name, and a description if it had none. */
  ghost predicate ProjectsKept(p: Package, projects: seq<Project>, projects': seq<Project>) {
    && |projects| <= |projects'|
    && forall i :: 0 <= i < |projects| && projects'[i] != projects[i] ==>
         NamedProject(p, LEGACY_PROJECT_NAME)(projects[i]) && projects'[i] == RestoredProject(projects[i])
  }

  lemma {:induction false} PutProjectKeeps(p: Package, projects: seq<Project>)
    ensures ProjectsKept(p, projects, PutProject(p, projects).rows)
  {
    hide RestoredProject;
  }

  /** Rows of other tenants are not touched, and nothing an operator set on a row of this one is lost. */
  lemma {:induction false} ApplyLeavesAlone(p: Package, db: Db, scan: Scan)
    requires Cast(p) && PackageOfTenant(p)
    ensures var db' := Apply(p, db, scan).db;
            && OthersKept(db.skills, db'.skills, SkillTenant(), p.tenant)
            && OthersKept(db.types, db'.types, TypeTenant(), p.tenant)
            && OthersKept(db.schemas, db'.schemas, TypeTenant(), p.tenant)
            && OthersKept(db.outcomes, db'.outcomes, OutcomeTenant(), p.tenant)
            && db.taskTypes <= db'.taskTypes && db.workflows <= db'.workflows && db.capabilities <= db'.capabilities
            && db.routing <= db'.routing && db.transitions <= db'.transitions && db.models <= db'.models
            && ProjectsKept(p, db.projects, db'.projects) && |db.agents| <= |db'.agents|
            && (forall i :: 0 <= i < |db.agents| ==> Extends(db.agents[i], db'.agents[i]))
            && (forall i :: 0 <= i < |db.agents| && (db.agents[i].tenant != Some(p.tenant) || db.agents[i].deleted) ==>
                 db'.agents[i] == db.agents[i])
  {
    hide PutAll, AddAll, PutAgents, PutStarters, FindBacklog, RoutingRows, TransitionRows, ModelRows, Clashes, SetEntry,
         Extends, OthersKept, TaskTypeRows, ProjectReport, PutProject, ProjectsKept;
    PutProjectKeeps(p, db.projects);
    PutAllKeepsOthers(db.skills, p.skills, scan.skills, SkillTenant(), p.tenant);
    PutAllKeepsOthers(db.types, p.types, scan.types, TypeTenant(), p.tenant);
    PutAllKeepsOthers(db.schemas, p.schemas, scan.schemas, TypeTenant(), p.tenant);
    PutAllKeepsOthers(db.outcomes, p.outcomes, scan.outcomes, OutcomeTenant(), p.tenant);
    var project := PutProject(p, db.projects).id;
    WorkflowsKept(p, PutBacklog(p, db.workflows, project).rows, project, p.starters);
    CapabilitiesKept(p, db.agents, db.capabilities, project, p.agents);
    forall i | 0 <= i < |db.agents| {
      AgentsKept(p, db.agents, db.capabilities, project, p.agents, i);
    }
  }

  // ---------------------------------------------------------------- the report and the routing

  function Size(db: Db, k: Kind): nat {
    match k
    case Skills => |db.skills|
    case WorkflowTypes => |db.types|
    case FieldSchemas => |db.schemas|
    case TaskTypes => |db.taskTypes|
    case Outcomes => |db.outcomes|
    case Projects => |db.projects|
    case Workflows => |db.workflows|
    case Agents => |db.agents|
    case Capabilities => |db.capabilities|
    case RoutingRules => |db.routing|
    case Transitions => |db.transitions|
    case ModelRouting => |db.models|
  }

  lemma {:induction false} CountAfter(m: map<Kind, nat>, l: Kind, n: nat, k: Kind)
    ensures Count(AddCount(m, l, n), k) == Count(m, k) + if l == k then n else 0
  {
  }

  lemma {:induction false} TypesGrowth(p: Package, db: Db, scan: Scan, k: Kind)
    ensures var a := ApplyTypes(p, db, scan, EMPTY_REPORT); Size(db, k) + Count(a.report.created, k) == Size(a.db, k)
  {
    hide PutAll, AddAll, TaskTypeRows, AllUpdates, Clashes, AddCount, Count;
    PutAllKeys(db.skills, p.skills, scan.skills);
    PutAllKeys(db.types, p.types, scan.types);
    PutAllKeys(db.schemas, p.schemas, scan.schemas);
    PutAllKeys(db.outcomes, p.outcomes, scan.outcomes);
    var none: map<Kind, nat> := map[];
    assert Count(none, k) == 0 by { CountOfNone(k); }
    var taskTypes := AddAll(db.taskTypes, TaskTypeRows(p, p.taskTypes));
    var n1 := |PutAll(db.skills, p.skills, scan.skills)| - |db.skills|;
    var n2 := |PutAll(db.types, p.types, scan.types)| - |db.types|;
    var n3 := |PutAll(db.schemas, p.schemas, scan.schemas)| - |db.schemas|;
    var n4 := |taskTypes| - |db.taskTypes|;
    var n5 := |PutAll(db.outcomes, p.outcomes, scan.outcomes)| - |db.outcomes|;
    var m1 := AddCount(none, Skills, n1);
    var m2 := AddCount(m1, WorkflowTypes, n2);
    var m3 := AddCount(m2, FieldSchemas, n3);
    var m4 := AddCount(m3, TaskTypes, n4);
    CountAfter(none, Skills, n1, k);
    CountAfter(m1, WorkflowTypes, n2, k);
    CountAfter(m2, FieldSchemas, n3, k);
    CountAfter(m3, TaskTypes, n4, k);
    CountAfter(m4, Outcomes, n5, k);
  }

  lemma {:induction false} CountOfNone(k: Kind)
    ensures Count(map[], k) == 0
  {
  }

  lemma {:induction false} ProjectGrowth(p: Package, projects: seq<Project>, r: Report, k: Kind)
    ensures Count(ProjectReport(p, projects, r).created, k)
            == Count(r.created, k) + if k == Projects then |PutProject(p, projects).rows| - |projects| else 0
  {
    CountAfter(r.created, Projects, 1, k);
  }

  lemma {:induction false} RestGrowth(p: Package, db: Db, r: Report, k: Kind)
    requires Cast(p)
    ensures var a := ApplyRest(p, db, r);
            Size(db, k) + Count(a.report.created, k) == Size(a.db, k) + Count(r.created, k)
  {
    hide AddAll, PutAgents, PutWorkflows, RoutingRows, TransitionRows, ModelRows, AddCount, Count,
         PutProject, ProjectReport;
    var a := ApplyRest(p, db, r).db;
    var projects := ProjectReport(p, db.projects, r).created;
    ProjectGrowth(p, db.projects, r, k);
    var m1 := AddCount(projects, Workflows, |a.workflows| - |db.workflows|);
    var m2 := AddCount(m1, Agents, |a.agents| - |db.agents|);
    var m3 := AddCount(m2, Capabilities, |a.capabilities| - |db.capabilities|);
    var m4 := AddCount(m3, RoutingRules, |a.routing| - |db.routing|);
    var m5 := AddCount(m4, Transitions, |a.transitions| - |db.transitions|);
    CountAfter(projects, Workflows, |a.workflows| - |db.workflows|, k);
    CountAfter(m1, Agents, |a.agents| - |db.agents|, k);
    CountAfter(m2, Capabilities, |a.capabilities| - |db.capabilities|, k);
    CountAfter(m3, RoutingRules, |a.routing| - |db.routing|, k);
    CountAfter(m4, Transitions, |a.transitions| - |db.transitions|, k);
    CountAfter(m5, ModelRouting, |a.models| - |db.models|, k);
  }

  /** The report's counts of created rows are what the tables grew by. */
  lemma {:induction false} CreatedIsGrowth(p: Package, db: Db, scan: Scan, k: Kind)
    requires Cast(p)
    ensures Size(db, k) + Count(Apply(p, db, scan).report.created, k) == Size(Apply(p, db, scan).db, k)
  {
    hide ApplyTypes, ApplyRest, Size, Count;
    TypesGrowth(p, db, scan, k);
    RestGrowth(p, ApplyTypes(p, db, scan, EMPTY_REPORT).db, ApplyTypes(p, db, scan, EMPTY_REPORT).report, k);
  }

  /** Agent `id` is one that a seed for part `k` finds. */
  ghost predicate Staffs(p: Package, agents: seq<Agent>, k: AgentKey, id: nat) {
    exists s :: s in p.agents && s.key == k && FindAgent(p, agents, s) == Some(id)
  }

  lemma {:induction false} ByKeyStep(p: Package, agents: seq<Agent>, c: seq<Keyed<CapabilityKey, bool>>, project: nat,
                                     seeds: seq<AgentSeed>, i: nat)
    requires i < |seeds|
    ensures var o := PutAgents(p, agents, c, project, seeds[..i]);
            PutAgents(p, agents, c, project, seeds[..i + 1]).byKey
                == o.byKey[seeds[i].key := PutAgent(p, o.agents, seeds[i], project).id]
  {
    hide PutAgent, Policies, AddAll;
    var upTo := seeds[..i + 1];
    assert upTo[..|upTo| - 1] == seeds[..i] && upTo[|upTo| - 1] == seeds[i];
  }

  lemma {:induction false} PartsAreStaffed(p: Package, agents: seq<Agent>, c: seq<Keyed<CapabilityKey, bool>>,
                                           project: nat, n: nat, k: AgentKey)
    requires SeedsApart(p, p.agents) && n <= |p.agents| && Seeded(p.agents[..n], k)
    ensures var part := PutAgents(p, agents, c, project, p.agents[..n]);
            k in part.byKey && Staffs(p, PutAgents(p, agents, c, project, p.agents).agents, k, part.byKey[k])
  {
    hide PutAgents, PutAgent, FindAgent, SeedsApart, Fill;
    ByKeyStep(p, agents, c, project, p.agents, n - 1);
    if p.agents[n - 1].key == k {
      AgentSurvives(p, agents, c, project, p.agents, n - 1);
    } else {
      var q :| q in p.agents[..n] && q.key == k;
      assert q in p.agents[..n - 1];
      PartsAreStaffed(p, agents, c, project, n - 1, k);
    }
  }

  lemma {:induction false} ReviewRuleMade(p: Package, project: nat, byKey: map<AgentKey, nat>, t: StarterType,
                                          taskTypes: seq<string>, taskType: string)
    requires Staffed(byKey) && taskType in taskTypes
    ensures Rule(p, project, t, taskType, "review", byKey[Review]) in LaterRules(p, project, byKey, t, taskTypes)
  {
    if taskTypes[|taskTypes| - 1] != taskType {
      ReviewRuleMade(p, project, byKey, t, taskTypes[..|taskTypes| - 1], taskType);
    }
  }

  lemma {:induction false} StarterRulesMade(p: Package, project: nat, byKey: map<AgentKey, nat>,
                                            starters: seq<StarterType>, t: StarterType, rule: Keyed<RoutingKey, int>)
    requires Staffed(byKey) && t in starters && rule in LaterRules(p, project, byKey, t, TaskTypesOf(p.taskTypes, t))
    ensures rule in StarterRules(p, project, byKey, starters)
  {
    hide LaterRules;
    if starters[|starters| - 1] != t {
      StarterRulesMade(p, project, byKey, starters[..|starters| - 1], t, rule);
    }
  }

  /** Every task type of every starter workflow type is routed, in review, to the agent of the review seed. */
  lemma {:induction false} EveryTaskTypeIsReviewed(p: Package, db: Db, scan: Scan, t: StarterType, taskType: string)
    requires Cast(p) && SeedsApart(p, p.agents) && t in p.starters && taskType in TaskTypesOf(p.taskTypes, t)
    ensures var db' := Apply(p, db, scan).db;
            exists id: nat :: Staffs(p, db'.agents, Review, id)
              && Has(db'.routing, RoutingKey(p.tenant, PutProject(p, db.projects).id, None, TypeText(t), taskType,
                 "review", id))
  {
    hide PutAgents, PutStarters, PutProject, FindBacklog, AddAll, LaterRules, StarterRules, ReadyRules, TransitionRows,
         ModelRows,
         SetEntry, PutAll, Clashes, AllUpdates, AddCount, Staffs, SeedsApart;
    var db' := Apply(p, db, scan).db;
    var project := PutProject(p, db.projects).id;
    var o := PutAgents(p, db.agents, db.capabilities, project, p.agents);
    assert p.agents[..|p.agents|] == p.agents;
    CastIsStaffed(p, db.agents, db.capabilities, project);
    assert Seeded(p.agents, Review);
    PartsAreStaffed(p, db.agents, db.capabilities, project, |p.agents|, Review);
    var rule := Rule(p, project, t, taskType, "review", o.byKey[Review]);
    ReviewRuleMade(p, project, o.byKey, t, TaskTypesOf(p.taskTypes, t), taskType);
    StarterRulesMade(p, project, o.byKey, p.starters, t, rule);
    var rows := RoutingRows(p, project, o.byKey);
    assert rule in rows;
    var i :| 0 <= i < |rows| && rows[i] == rule;
    AddAllHas(db.routing, rows);
    assert Has(AddAll(db.routing, rows), rows[i].key);
  }
}
