/** The permission table of the tools, filled from the policy profile and the overrides
    and remembered by one service instance. */
module Permissions {
  import opened Tables
  import opened ToolPolicy

  datatype Tool = Tool(id: string, group: Group)

  datatype Permission = Permission(level: Level, approvalRequired: bool, active: bool)

  type Key = (nat, string)

  /** Settings, override rows and permission rows, and what the instance remembers:
      the agents it has filled in and the lookups it has made. */
  datatype Policy = Policy(
    profile: Profile, overrides: map<Key, Level>, table: map<Key, Permission>,
    filled: set<nat>, cached: map<Key, Option<Permission>>)

  datatype Op =
    | ChangeProfile(profile: Profile)
    | ChangeLevel(tool: string, level: Level)
    | Lookup(agent: nat, tool: string)

  predicate DistinctTools(catalog: seq<Tool>) {
    forall i: nat, j: nat | i < j < |catalog| :: catalog[i].id != catalog[j].id
  }

  function OverrideOf(p: Policy, agent: nat, tool: string): Option<Level> {
    if (agent, tool) in p.overrides then Some(p.overrides[(agent, tool)]) else None
  }

  function Effective(p: Policy, agent: nat, tool: Tool): Level {
    Resolve(p.profile, tool.group, OverrideOf(p, agent, tool.id))
  }

  function RowFor(level: Level): Permission {
    Permission(level, level == Ask, true)
  }

  /** The row a lookup finds; an inactive one is not found. */
  function Stored(p: Policy, agent: nat, tool: string): Option<Permission> {
    if (agent, tool) in p.table && p.table[(agent, tool)].active then Some(p.table[(agent, tool)]) else None
  }

  // -------------------------------------------------------------------- steps

  /** The table after upserting the first `n` tools of the catalog. */
  function Filled(p: Policy, catalog: seq<Tool>, agent: nat, n: nat): map<Key, Permission>
    requires n <= |catalog|
  {
    if n == 0 then p.table
    else Filled(p, catalog, agent, n - 1)[(agent, catalog[n-1].id) := RowFor(Effective(p, agent, catalog[n-1]))]
  }

  function Materialize(p: Policy, catalog: seq<Tool>, agent: nat): Policy {
    if agent in p.filled then p
    else p.(table := Filled(p, catalog, agent, |catalog|), filled := p.filled + {agent})
  }

  /** The default agent is filled in anew; every remembered lookup is dropped. */
  function Refill(p: Policy, catalog: seq<Tool>, agent: nat): Policy {
    Materialize(p.(filled := p.filled - {agent}, cached := map[]), catalog, agent)
  }

  function FindTool(catalog: seq<Tool>, tool: string): Option<Tool> {
    if |catalog| == 0 then None
    else if catalog[0].id == tool then Some(catalog[0])
    else FindTool(catalog[1..], tool)
  }

  /** A level equal to the profile's own is no override. */
  function Overridden(p: Policy, agent: nat, tool: Tool, level: Level): Policy {
    p.(overrides := if level == Default(p.profile, tool.group) then p.overrides - {(agent, tool.id)}
                    else p.overrides[(agent, tool.id) := level])
  }

  function LevelChanged(p: Policy, catalog: seq<Tool>, agent: nat, tool: string, level: Level): Policy {
    var entry := FindTool(catalog, tool);
    if entry.None? then p
    else Refill(Overridden(Refill(p, catalog, agent), agent, entry.value, level), catalog, agent)
  }

  function LookedUp(p: Policy, catalog: seq<Tool>, agent: nat, tool: string): Policy {
    var q := Materialize(p, catalog, agent);
    if (agent, tool) in q.cached then q
    else q.(cached := q.cached[(agent, tool) := Stored(q, agent, tool)])
  }

  function Apply(p: Policy, catalog: seq<Tool>, default: nat, op: Op): Policy {
    match op
    case ChangeProfile(profile) => Refill(p.(profile := profile), catalog, default)
    case ChangeLevel(tool, level) => LevelChanged(p, catalog, default, tool, level)
    case Lookup(agent, tool) => LookedUp(p, catalog, agent, tool)
  }

  function Replay(p: Policy, catalog: seq<Tool>, default: nat, ops: seq<Op>): Policy
    decreases |ops|
  {
    if |ops| == 0 then p else Replay(Apply(p, catalog, default, ops[0]), catalog, default, ops[1..])
  }

  // --------------------------------------------------------------- invariants

  /** An agent's rows are those of the resolver. */
  ghost predicate Agrees(p: Policy, catalog: seq<Tool>, agent: nat) {
    forall i: nat | i < |catalog| ::
      (agent, catalog[i].id) in p.table && p.table[(agent, catalog[i].id)] == RowFor(Effective(p, agent, catalog[i]))
  }

  /** What is remembered is what the table holds. */
  ghost predicate CacheAgrees(p: Policy) {
    forall key: Key | key in p.cached :: key.0 in p.filled && p.cached[key] == Stored(p, key.0, key.1)
  }

  ghost predicate Sound(p: Policy, catalog: seq<Tool>, default: nat) {
    CacheAgrees(p) && (default in p.filled ==> Agrees(p, catalog, default))
  }

  lemma {:induction false} FilledRows(p: Policy, catalog: seq<Tool>, agent: nat, n: nat)
    requires n <= |catalog| && DistinctTools(catalog)
    ensures forall i: nat | i < n ::
              (agent, catalog[i].id) in Filled(p, catalog, agent, n)
              && Filled(p, catalog, agent, n)[(agent, catalog[i].id)] == RowFor(Effective(p, agent, catalog[i]))
    ensures forall key: Key | key.0 != agent || forall i: nat | i < n :: catalog[i].id != key.1 ::
              (key in Filled(p, catalog, agent, n) <==> key in p.table)
              && (key in p.table ==> Filled(p, catalog, agent, n)[key] == p.table[key])
  {
    if n > 0 { FilledRows(p, catalog, agent, n - 1); }
  }

  lemma MaterializeAgrees(p: Policy, catalog: seq<Tool>, agent: nat)
    requires DistinctTools(catalog) && agent !in p.filled
    ensures Agrees(Materialize(p, catalog, agent), catalog, agent)
    ensures forall other: nat | other != agent ::
              Agrees(Materialize(p, catalog, agent), catalog, other) <==> Agrees(p, catalog, other)
    ensures CacheAgrees(p) ==> CacheAgrees(Materialize(p, catalog, agent))
  {
    var q := Materialize(p, catalog, agent);
    FilledRows(p, catalog, agent, |catalog|);
    forall i: nat | i < |catalog| ensures Effective(q, agent, catalog[i]) == Effective(p, agent, catalog[i]) {}
    if CacheAgrees(p) {
      forall key: Key | key in q.cached ensures key.0 in q.filled && q.cached[key] == Stored(q, key.0, key.1) {
        assert key.0 != agent;
      }
    }
  }

  lemma RefillAgrees(p: Policy, catalog: seq<Tool>, agent: nat)
    requires DistinctTools(catalog)
    ensures var q := Refill(p, catalog, agent);
            && Agrees(q, catalog, agent) && CacheAgrees(q) && agent in q.filled
            && q.profile == p.profile && q.overrides == p.overrides
            && forall other: nat | other != agent :: (Agrees(q, catalog, other) <==> Agrees(p, catalog, other))
  {
    var r := p.(filled := p.filled - {agent}, cached := map[]);
    MaterializeAgrees(r, catalog, agent);
    forall other: nat ensures Agrees(r, catalog, other) <==> Agrees(p, catalog, other) {
      SameSettingsAgree(p, r, catalog, other);
    }
  }

  lemma SameSettingsAgree(p: Policy, q: Policy, catalog: seq<Tool>, agent: nat)
    requires p.profile == q.profile && p.table == q.table && p.overrides == q.overrides
    ensures Agrees(q, catalog, agent) <==> Agrees(p, catalog, agent)
  {
    forall i: nat | i < |catalog| ensures Effective(p, agent, catalog[i]) == Effective(q, agent, catalog[i]) {}
    if Agrees(q, catalog, agent) { assert Agrees(p, catalog, agent); }
    if Agrees(p, catalog, agent) { assert Agrees(q, catalog, agent); }
  }

  lemma {:induction false} FoundTool(catalog: seq<Tool>, tool: string)
    ensures FindTool(catalog, tool).Some? <==> exists i: nat :: i < |catalog| && catalog[i].id == tool
    ensures FindTool(catalog, tool).Some? ==>
              && FindTool(catalog, tool).value in catalog
              && FindTool(catalog, tool).value.id == tool
  {
    if |catalog| > 0 {
      FoundTool(catalog[1..], tool);
      if exists i: nat :: i < |catalog| && catalog[i].id == tool {
        var i: nat :| i < |catalog| && catalog[i].id == tool;
        if i > 0 { assert catalog[1..][i-1].id == tool; }
      }
    }
  }

  lemma LookupKeepsSound(p: Policy, catalog: seq<Tool>, default: nat, agent: nat, tool: string)
    requires DistinctTools(catalog) && Sound(p, catalog, default)
    ensures Sound(LookedUp(p, catalog, agent, tool), catalog, default)
    ensures agent in LookedUp(p, catalog, agent, tool).filled
  {
    var q := Materialize(p, catalog, agent);
    if agent !in p.filled { MaterializeAgrees(p, catalog, agent); }
    SameSettingsAgree(q, LookedUp(p, catalog, agent, tool), catalog, default);
  }

  lemma ApplyKeepsSound(p: Policy, catalog: seq<Tool>, default: nat, op: Op)
    requires DistinctTools(catalog) && Sound(p, catalog, default)
    ensures Sound(Apply(p, catalog, default, op), catalog, default)
  {
    match op
    case ChangeProfile(profile) => RefillAgrees(p.(profile := profile), catalog, default);
    case ChangeLevel(tool, level) =>
      var entry := FindTool(catalog, tool);
      if entry.Some? {
        RefillAgrees(Overridden(Refill(p, catalog, default), default, entry.value, level), catalog, default);
      }
    case Lookup(agent, tool) => LookupKeepsSound(p, catalog, default, agent, tool);
  }

  lemma {:induction false} HistoryKeepsSound(p: Policy, catalog: seq<Tool>, default: nat, ops: seq<Op>)
    requires DistinctTools(catalog) && Sound(p, catalog, default)
    ensures Sound(Replay(p, catalog, default, ops), catalog, default)
    decreases |ops|
  {
    if |ops| > 0 {
      ApplyKeepsSound(p, catalog, default, ops[0]);
      HistoryKeepsSound(Apply(p, catalog, default, ops[0]), catalog, default, ops[1..]);
    }
  }

  /** After any history of a fresh instance, whatever rows it started from, the default
      agent's lookup of a catalog tool finds the override or else the profile's level,
      and asks exactly when that level is to ask. */
  lemma LookupsAreEffective(p: Policy, catalog: seq<Tool>, default: nat, ops: seq<Op>, i: nat)
    requires DistinctTools(catalog) && i < |catalog| && p.filled == {} && p.cached == map[]
    ensures var q := LookedUp(Replay(p, catalog, default, ops), catalog, default, catalog[i].id);
            && (default, catalog[i].id) in q.cached
            && q.cached[(default, catalog[i].id)] == Some(RowFor(Effective(q, default, catalog[i])))
            && q.cached[(default, catalog[i].id)].Some?
            && var row := q.cached[(default, catalog[i].id)].value;
               && row.active && (row.approvalRequired <==> row.level == Ask)
               && ((default, catalog[i].id) in q.overrides ==> row.level == q.overrides[(default, catalog[i].id)])
               && ((default, catalog[i].id) !in q.overrides ==> row.level == Default(q.profile, catalog[i].group))
  {
    HistoryKeepsSound(p, catalog, default, ops);
    LookupKeepsSound(Replay(p, catalog, default, ops), catalog, default, default, catalog[i].id);
  }

  /** What a change of level leaves for later profiles: a level that was not the profile's
      own holds under every other profile, one that was gives way to the next profile's. */
  lemma LevelAcrossProfiles(p: Policy, catalog: seq<Tool>, default: nat, i: nat, level: Level, profile: Profile)
    requires DistinctTools(catalog) && i < |catalog|
    ensures var q := Apply(p, catalog, default, ChangeLevel(catalog[i].id, level));
            var r := Apply(q, catalog, default, ChangeProfile(profile));
            var now, later := Stored(q, default, catalog[i].id), Stored(r, default, catalog[i].id);
            && now.Some? && now.value.level == level && (now.value.approvalRequired <==> level == Ask)
            && later.Some? && (later.value.approvalRequired <==> later.value.level == Ask)
            && (level != Default(p.profile, catalog[i].group) ==> later.value.level == level)
            && (level == Default(p.profile, catalog[i].group) ==>
                  later.value.level == Default(profile, catalog[i].group))
  {
    var q := LevelChanged(p, catalog, default, catalog[i].id, level);
    LevelChangeIsLocal(p, catalog, default, i, level);
    FindsByPosition(catalog, i);
    RefillRows(p, catalog, default);
    var first := Refill(p, catalog, default);
    var changed := Overridden(first, default, catalog[i], level);
    RefillRows(changed, catalog, default);
    assert q.overrides == changed.overrides;
    RefillRows(q.(profile := profile), catalog, default);
  }

  /** A change of one tool's level makes that level effective at once and leaves every
      other tool at its effective level, and every other agent's rows alone. */
  lemma LevelChangeIsLocal(p: Policy, catalog: seq<Tool>, default: nat, i: nat, level: Level)
    requires DistinctTools(catalog) && i < |catalog|
    ensures var q := LevelChanged(p, catalog, default, catalog[i].id, level);
            && Stored(q, default, catalog[i].id) == Some(RowFor(level))
            && (forall j: nat | j < |catalog| && j != i ::
                  Stored(q, default, catalog[j].id) == Some(RowFor(Effective(p, default, catalog[j]))))
            && (forall key: Key | key.0 != default ::
                  (key in q.table <==> key in p.table) && (key in q.table ==> q.table[key] == p.table[key]))
  {
    FindsByPosition(catalog, i);
    var first := Refill(p, catalog, default);
    var changed := Overridden(first, default, catalog[i], level);
    RefillRows(p, catalog, default);
    RefillRows(changed, catalog, default);
    OverrideIsLocal(first, catalog, default, i, level);
    assert forall j: nat | j < |catalog| :: Effective(first, default, catalog[j]) == Effective(p, default, catalog[j]);
  }

  lemma OverrideIsLocal(p: Policy, catalog: seq<Tool>, agent: nat, i: nat, level: Level)
    requires DistinctTools(catalog) && i < |catalog|
    ensures var q := Overridden(p, agent, catalog[i], level);
            && Effective(q, agent, catalog[i]) == level
            && forall j: nat | j < |catalog| && j != i ::
                Effective(q, agent, catalog[j]) == Effective(p, agent, catalog[j])
  {
    forall j: nat | j < |catalog| && j != i ensures (agent, catalog[j].id) != (agent, catalog[i].id) {
      assert i < j || j < i;
    }
  }

  /** After a refill the agent's lookups are effective, everyone else's as before. */
  lemma RefillRows(p: Policy, catalog: seq<Tool>, agent: nat)
    requires DistinctTools(catalog)
    ensures var q := Refill(p, catalog, agent);
            && q.profile == p.profile && q.overrides == p.overrides
            && (forall j: nat | j < |catalog| ::
                  Stored(q, agent, catalog[j].id) == Some(RowFor(Effective(p, agent, catalog[j]))))
            && (forall key: Key | key.0 != agent ::
                  (key in q.table <==> key in p.table) && (key in q.table ==> q.table[key] == p.table[key]))
  {
    var r := p.(filled := p.filled - {agent}, cached := map[]);
    FilledRows(r, catalog, agent, |catalog|);
    forall j: nat | j < |catalog| ensures Effective(r, agent, catalog[j]) == Effective(p, agent, catalog[j]) {}
  }

  lemma {:induction false} FindsByPosition(catalog: seq<Tool>, i: nat)
    requires DistinctTools(catalog) && i < |catalog|
    ensures FindTool(catalog, catalog[i].id) == Some(catalog[i])
  {
    if i > 0 {
      assert DistinctTools(catalog[1..]);
      FindsByPosition(catalog[1..], i - 1);
    }
  }

  /** A profile change refills only the default agent.  Any other agent filled in before
      still agrees exactly when, for each tool it has no override for, the two profiles
      give the same level. */
  lemma OtherAgentsAgreeExactly(p: Policy, catalog: seq<Tool>, default: nat, agent: nat, profile: Profile)
    requires DistinctTools(catalog) && agent != default && Agrees(p, catalog, agent)
    ensures Agrees(Apply(p, catalog, default, ChangeProfile(profile)), catalog, agent) <==>
              forall i: nat | i < |catalog| && OverrideOf(p, agent, catalog[i].id).None? ::
                Default(profile, catalog[i].group) == Default(p.profile, catalog[i].group)
  {
    var q := p.(profile := profile);
    RefillAgrees(q, catalog, default);
    forall i: nat | i < |catalog|
      ensures Effective(q, agent, catalog[i]) == Effective(p, agent, catalog[i])
              <==> (|| OverrideOf(p, agent, catalog[i].id).Some?
                    || Default(profile, catalog[i].group) == Default(p.profile, catalog[i].group))
    {
      assert OverrideOf(q, agent, catalog[i].id) == OverrideOf(p, agent, catalog[i].id);
    }
    AgreesWithBoth(p, q, catalog, agent);
  }

  /** Rows that agree with one policy agree with another exactly when the levels do. */
  lemma AgreesWithBoth(p: Policy, q: Policy, catalog: seq<Tool>, agent: nat)
    requires Agrees(p, catalog, agent) && p.table == q.table
    ensures Agrees(q, catalog, agent) <==>
              forall i: nat | i < |catalog| :: Effective(q, agent, catalog[i]) == Effective(p, agent, catalog[i])
  {
    forall i: nat | i < |catalog|
      ensures q.table[(agent, catalog[i].id)] == RowFor(Effective(q, agent, catalog[i]))
              <==> Effective(q, agent, catalog[i]) == Effective(p, agent, catalog[i])
    {
      assert p.table[(agent, catalog[i].id)] == RowFor(Effective(p, agent, catalog[i]));
    }
  }

  /** Such a stale agent's lookups go on returning the old profile's level. */
  lemma StaleLookup(p: Policy, catalog: seq<Tool>, default: nat, agent: nat, profile: Profile, i: nat)
    requires DistinctTools(catalog) && i < |catalog| && agent != default
    requires agent in p.filled && Agrees(p, catalog, agent) && OverrideOf(p, agent, catalog[i].id).None?
    requires Default(profile, catalog[i].group) != Default(p.profile, catalog[i].group)
    ensures var q := Apply(p, catalog, default, ChangeProfile(profile));
            var r := Apply(q, catalog, default, Lookup(agent, catalog[i].id));
            && (agent, catalog[i].id) in r.cached
            && r.cached[(agent, catalog[i].id)] == Some(RowFor(Default(p.profile, catalog[i].group)))
            && Effective(r, agent, catalog[i]) == Default(profile, catalog[i].group)
  {
    var q := p.(profile := profile);
    RefillAgrees(q, catalog, default);
    FilledRows(q.(filled := q.filled - {default}, cached := map[]), catalog, default, |catalog|);
    assert Effective(p, agent, catalog[i]) == Default(p.profile, catalog[i].group);
  }
}
