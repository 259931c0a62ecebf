/** One instance of the tool service on its tables, proved against `Permissions`. */
module ToolService {
  import opened Tables
  import opened ToolPolicy
  import opened Permissions

  class ToolService {
    const catalog: seq<Tool>
    const defaultAgent: nat
    var profile: Profile
    var overrides: map<Key, Level>
    var table: map<Key, Permission>
    var filled: set<nat>
    var cached: map<Key, Option<Permission>>

    function Contents(): Policy
      reads this
    {
      Policy(profile, overrides, table, filled, cached)
    }

    ghost predicate Valid()
      reads this
    {
      DistinctTools(catalog) && Sound(Contents(), catalog, defaultAgent)
    }

    /** A new instance remembers nothing; the rows are whatever the tables hold. */
    constructor (catalog: seq<Tool>, defaultAgent: nat, profile: Profile, overrides: map<Key, Level>,
        table: map<Key, Permission>)
      requires DistinctTools(catalog)
      ensures Valid() && this.catalog == catalog && this.defaultAgent == defaultAgent
      ensures Contents() == Policy(profile, overrides, table, {}, map[])
    {
      this.catalog, this.defaultAgent, this.profile := catalog, defaultAgent, profile;
      this.overrides, this.table, this.filled, this.cached := overrides, table, {}, map[];
    }

    method UpsertPermission(agent: nat, tool: string, level: Level, approvalRequired: bool)
      modifies this`table
      ensures table == old(table)[(agent, tool) := Permission(level, approvalRequired, true)]
    {
      var permission := Permission(level, approvalRequired, true);
      if (agent, tool) in table {
        permission := table[(agent, tool)].(level := level, approvalRequired := approvalRequired, active := true);
      }
      table := table[(agent, tool) := permission];
    }

    method MaterializePermissions(agent: nat)
      modifies this`table, this`filled
      ensures Contents() == Materialize(old(Contents()), catalog, agent)
    {
      if agent in filled { return; }
      ghost var p := Contents();
      for i := 0 to |catalog|
        invariant table == Filled(p, catalog, agent, i) && filled == p.filled
      {
        var override := if (agent, catalog[i].id) in overrides then Some(overrides[(agent, catalog[i].id)]) else None;
        var level := Resolve(profile, catalog[i].group, override);
        UpsertPermission(agent, catalog[i].id, level, level == Ask);
      }
      filled := filled + {agent};
    }

    method Forget(agent: nat)
      modifies this`table, this`filled, this`cached
      ensures Contents() == Refill(old(Contents()), catalog, agent)
    {
      filled := filled - {agent};
      cached := map[];
      MaterializePermissions(agent);
    }

    method UpdatePolicyProfile(wanted: Profile)
      requires Valid()
      modifies this
      ensures Valid() && Contents() == Apply(old(Contents()), catalog, defaultAgent, ChangeProfile(wanted))
      ensures profile == wanted && defaultAgent in filled && Agrees(Contents(), catalog, defaultAgent)
    {
      ApplyKeepsSound(Contents(), catalog, defaultAgent, ChangeProfile(wanted));
      RefillAgrees(Contents().(profile := wanted), catalog, defaultAgent);
      profile := wanted;
      Forget(defaultAgent);
    }

    method RequireCatalogEntry(tool: string) returns (entry: Option<Tool>)
      ensures entry == FindTool(catalog, tool)
    {
      for i := 0 to |catalog|
        invariant FindTool(catalog[i..], tool) == FindTool(catalog, tool)
      {
        if catalog[i].id == tool { return Some(catalog[i]); }
        assert catalog[i..][1..] == catalog[i+1..];
      }
      return None;
    }

    /** An unknown tool changes nothing; a known one has the wanted level afterwards. */
    method UpdatePermission(tool: string, level: Level) returns (saved: Option<Permission>)
      requires Valid()
      modifies this
      ensures Valid() && Contents() == Apply(old(Contents()), catalog, defaultAgent, ChangeLevel(tool, level))
      ensures saved.Some? <==> exists i: nat :: i < |catalog| && catalog[i].id == tool
      ensures saved.Some? ==>
                (defaultAgent, tool) in table && saved.value == table[(defaultAgent, tool)] == RowFor(level)
      ensures saved.None? ==> Contents() == old(Contents())
    {
      ghost var p := Contents();
      ApplyKeepsSound(p, catalog, defaultAgent, ChangeLevel(tool, level));
      FoundTool(catalog, tool);
      var entry := RequireCatalogEntry(tool);
      if entry.None? { return None; }
      ghost var i: nat :| i < |catalog| && catalog[i] == entry.value;
      LevelChangeIsLocal(p, catalog, defaultAgent, i, level);
      Forget(defaultAgent);
      if level == Default(profile, entry.value.group) {
        if (defaultAgent, tool) in overrides { overrides := overrides - {(defaultAgent, tool)}; }
      } else {
        overrides := overrides[(defaultAgent, tool) := level];
      }
      assert Contents() == Overridden(Refill(p, catalog, defaultAgent), defaultAgent, entry.value, level);
      Forget(defaultAgent);
      return Some(table[(defaultAgent, tool)]);
    }

    /** The lookup before a tool call: fill in once, then answer from memory. */
    method PermissionFor(agent: nat, tool: string) returns (permission: Option<Permission>)
      requires Valid()
      modifies this`table, this`filled, this`cached
      ensures Valid() && Contents() == Apply(old(Contents()), catalog, defaultAgent, Lookup(agent, tool))
      ensures permission == Stored(Contents(), agent, tool)
      ensures forall i: nat | i < |catalog| && catalog[i].id == tool && agent == defaultAgent ::
                permission == Some(RowFor(Effective(Contents(), agent, catalog[i])))
    {
      LookupKeepsSound(Contents(), catalog, defaultAgent, agent, tool);
      MaterializePermissions(agent);
      if (agent, tool) in cached {
        permission := cached[(agent, tool)];
      } else {
        permission := if (agent, tool) in table && table[(agent, tool)].active
                      then Some(table[(agent, tool)])
                      else None;
        cached := cached[(agent, tool) := permission];
      }
    }
  }
}
