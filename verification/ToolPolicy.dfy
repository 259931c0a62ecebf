/** The policy profiles of the tools. */
module ToolPolicy {
  import opened Tables

  datatype Level = Deny | Ask | Allow

  datatype Group = FileSystem | Runtime | Web | Sessions | Memories | Automation

  datatype Profile = Minimal | Coding | Research | Full

  /** The level a profile gives to a group of tools. */
  function Default(profile: Profile, group: Group): Level {
    match profile
    case Minimal => if group == Web then Deny else Ask
    case Coding => if group == Web then Allow else Ask
    case Research => if group == Web || group == Memories then Allow else Ask
    case Full => Allow
  }

  function Resolve(profile: Profile, group: Group, override: Option<Level>): Level {
    if override.Some? then override.value else Default(profile, group)
  }

  function Rank(level: Level): nat {
    match level
    case Deny => 0
    case Ask => 1
    case Allow => 2
  }

  function Generosity(profile: Profile): nat {
    match profile
    case Minimal => 0
    case Coding => 1
    case Research => 2
    case Full => 3
  }

  /** The profiles are ordered: a later one never allows less of any group. */
  lemma ProfilesOnlyWiden(p: Profile, q: Profile, group: Group)
    requires Generosity(p) <= Generosity(q)
    ensures Rank(Default(p, group)) <= Rank(Default(q, group))
  {}

  /** The whole table: only the minimal profile denies anything, and that is the web; the
      full profile allows everything, and of the others the research profile allows the
      web and the memories, the coding profile the web. */
  lemma ProfilesAre(p: Profile, g: Group)
    ensures Default(p, g) == Deny <==> p == Minimal && g == Web
    ensures Default(p, g) == Allow <==>
              p == Full || (p == Coding && g == Web) || (p == Research && (g == Web || g == Memories))
  {}
}
