/**
 * The configuration lookups (`config_parser.py`) over the tree that `yaml.safe_load`
 * returns for `environments.yaml`: the environments, each one's ACRs and AKS cluster,
 * a value found by a dot-separated path, and the inventory file of a source type.
 * Every way the script stops is a `ConfigError`: the four messages it prints before
 * `sys.exit(1)`, and `Malformed` for a Python exception it does not catch.
 */
module Config {
  import opened Wrappers
  import opened Text

  /** A YAML node: mappings keep their keys in file order. */
  datatype Yaml =
    | Mapping(entries: seq<(string, Yaml)>)
    | Sequence(items: seq<Yaml>)
    | Str(s: string)
    | Int(i: int)
    | Bool(b: bool)
    | Null

  datatype ConfigError =
    | EnvironmentNotFound(env: string)
    | NoAksConfiguration(env: string)
    | PathNotFound(path: string)
    | SourceTypeNotFound(sourceType: string, filter: Option<string>)
    | Malformed

  datatype Result<T> = Ok(value: T) | Err(error: ConfigError)

  // ---------------------------------------------------------------------------
  // Mappings
  // ---------------------------------------------------------------------------

  /** The position of `key` among the entries, if it is there. */
  function FindKey(entries: seq<(string, Yaml)>, key: string): (r: Option<nat>)
    ensures r.None? <==> forall i :: 0 <= i < |entries| ==> entries[i].0 != key
    ensures r.Some? ==> r.value < |entries| && entries[r.value].0 == key
    decreases |entries|
  {
    if entries == [] then None
    else if entries[0].0 == key then Some(0)
    else
      var r := FindKey(entries[1..], key);
      if r.Some? then Some(r.value + 1) else None
  }

  /** `d[key]` on a mapping's entries, when the key is there. */
  function Lookup(entries: seq<(string, Yaml)>, key: string): Option<Yaml> {
    var i := FindKey(entries, key);
    if i.Some? then Some(entries[i.value].1) else None
  }

  function Keys(entries: seq<(string, Yaml)>): (ks: seq<string>)
    ensures |ks| == |entries| && forall i :: 0 <= i < |entries| ==> ks[i] == entries[i].0
  {
    seq(|entries|, i requires 0 <= i < |entries| => entries[i].0)
  }

  /** `node.get(key, default)`: only a mapping has `get`. */
  function DictGet(node: Yaml, key: string, default: Yaml): (r: Result<Yaml>)
    ensures r.Err? <==> !node.Mapping?
    ensures r.Err? ==> r.error == Malformed
  {
    if node.Mapping? then Ok(Lookup(node.entries, key).GetOr(default)) else Err(Malformed)
  }

  /** `node[key]` outside a `try`: a missing key or a node that is no mapping raises. */
  function Index(node: Yaml, key: string): (r: Result<Yaml>)
    ensures r.Err? ==> r.error == Malformed
    ensures r.Ok? <==> node.Mapping? && exists i :: 0 <= i < |node.entries| && node.entries[i].0 == key
  {
    if node.Mapping? && Lookup(node.entries, key).Some? then Ok(Lookup(node.entries, key).value) else Err(Malformed)
  }

  /** Python's truth value of a node (`if not aks:`). */
  predicate Truthy(node: Yaml) {
    match node
    case Mapping(es) => es != []
    case Sequence(xs) => xs != []
    case Str(s) => s != ""
    case Int(i) => i != 0
    case Bool(b) => b
    case Null => false
  }

  /** A scalar as an f-string shows it. */
  function ScalarText(node: Yaml): Option<string> {
    match node
    case Str(s) => Some(s)
    case Int(i) => Some(IntToString(i))
    case Bool(b) => Some(if b then "True" else "False")
    case Null => Some("None")
    case _ => None
  }

  /** `f"{node[key]}"` for a scalar field. */
  function Field(node: Yaml, key: string): (r: Result<string>)
    ensures r.Err? ==> r.error == Malformed
  {
    var v := Index(node, key);
    if v.Err? || ScalarText(v.value).None? then Err(Malformed) else Ok(ScalarText(v.value).value)
  }

  // ---------------------------------------------------------------------------
  // Environments
  // ---------------------------------------------------------------------------

  /** `config['environments']`, which must be a mapping. */
  function Environments(config: Yaml): (r: Result<seq<(string, Yaml)>>)
    ensures r.Err? ==> r.error == Malformed
  {
    var envs := Index(config, "environments");
    if envs.Ok? && envs.value.Mapping? then Ok(envs.value.entries) else Err(Malformed)
  }

  /** `list_environments`: the environment names in file order. */
  function ListEnvironments(config: Yaml): (r: Result<seq<string>>)
    ensures r.Err? ==> r.error == Malformed
    ensures r.Ok? ==> Environments(config).Ok? && r.value == Keys(Environments(config).value)
  {
    var envs := Environments(config);
    if envs.Err? then Err(Malformed) else Ok(Keys(envs.value))
  }

  /** `config['environments'][env_name]` after the check that the environment exists. */
  function EnvConfig(config: Yaml, env: string): (r: Result<Yaml>)
    ensures Environments(config).Err? ==> r == Err(Malformed)
    ensures Environments(config).Ok? ==> (r == Err(EnvironmentNotFound(env)) <==> env !in Keys(Environments(config).value))
    ensures r.Err? ==> r.error == Malformed || r.error == EnvironmentNotFound(env)
  {
    var envs := Environments(config);
    if envs.Err? then Err(Malformed)
    else
      var v := Lookup(envs.value, env);
      if v.None? then Err(EnvironmentNotFound(env)) else Ok(v.value)
  }

  // ---------------------------------------------------------------------------
  // get_acr_info
  // ---------------------------------------------------------------------------

  /** `f"{acr_name}:{acr_config['subscription']}:{acr_config['registry_name']}"`. */
  function AcrLine(name: string, acr: Yaml): (r: Result<string>)
    ensures r.Err? ==> r.error == Malformed
  {
    var sub := Field(acr, "subscription");
    var reg := Field(acr, "registry_name");
    if sub.Err? || reg.Err? then Err(Malformed) else Ok(Join([name, sub.value, reg.value], ":"))
  }

  /** The line of every ACR in order, or `Malformed` when one of them lacks a field. */
  function AcrLines(acrs: seq<(string, Yaml)>): (r: Result<seq<string>>)
    ensures r.Err? ==> r.error == Malformed
    ensures r.Ok? ==> |r.value| == |acrs|
    ensures r.Ok? ==> forall i :: 0 <= i < |acrs| ==> AcrLine(acrs[i].0, acrs[i].1) == Ok(r.value[i])
    decreases |acrs|
  {
    if acrs == [] then Ok([])
    else
      var init, last := acrs[..|acrs| - 1], acrs[|acrs| - 1];
      var ls := AcrLines(init);
      var l := AcrLine(last.0, last.1);
      if ls.Err? || l.Err? then Err(Malformed)
      else
        assert forall i :: 0 <= i < |init| ==> init[i] == acrs[i];
        Ok(ls.value + [l.value])
  }

  /** What `get_acr_info` returns, or why it stops. */
  function AcrInfo(config: Yaml, env: string): Result<seq<string>> {
    var envConfig := EnvConfig(config, env);
    if envConfig.Err? then Err(envConfig.error)
    else
      var acrs := DictGet(envConfig.value, "acrs", Mapping([]));
      if acrs.Err? || !acrs.value.Mapping? then Err(Malformed)
      else AcrLines(acrs.value.entries)
  }

  /** `get_acr_info` over a loaded configuration: one line per ACR of the environment. */
  method GetAcrInfo(config: Yaml, env: string) returns (r: Result<seq<string>>)
    ensures r == AcrInfo(config, env)
  {
    var envConfig := EnvConfig(config, env);
    if envConfig.Err? {
      return Err(envConfig.error);
    }
    var acrs := DictGet(envConfig.value, "acrs", Mapping([]));
    if acrs.Err? || !acrs.value.Mapping? {
      return Err(Malformed);
    }
    var entries := acrs.value.entries;
    var result := [];
    for i := 0 to |entries|
      invariant AcrLines(entries[..i]) == Ok(result)
    {
      var line := AcrLine(entries[i].0, entries[i].1);
      AcrLinesStep(entries, i);
      if line.Err? {
        AcrLinesFailFrom(entries, i + 1);
        return Err(Malformed);
      }
      result := result + [line.value];
    }
    assert entries[..|entries|] == entries;
    return Ok(result);
  }

  lemma AcrLinesStep(acrs: seq<(string, Yaml)>, i: nat)
    requires i < |acrs|
    ensures AcrLines(acrs[..i + 1]) ==
      if AcrLines(acrs[..i]).Err? || AcrLine(acrs[i].0, acrs[i].1).Err? then Err(Malformed)
      else Ok(AcrLines(acrs[..i]).value + [AcrLine(acrs[i].0, acrs[i].1).value])
  {
    assert acrs[..i + 1][..i] == acrs[..i];
  }

  /** Once a prefix of the ACRs fails, the whole list fails. */
  lemma {:induction false} AcrLinesFailFrom(acrs: seq<(string, Yaml)>, k: nat)
    requires k <= |acrs| && AcrLines(acrs[..k]).Err?
    ensures AcrLines(acrs) == Err(Malformed)
    decreases |acrs| - k
  {
    if k < |acrs| {
      assert acrs[..k + 1][..k] == acrs[..k];
      AcrLinesFailFrom(acrs, k + 1);
    } else {
      assert acrs[..k] == acrs;
    }
  }

  /** An environment without `acrs` has no ACR lines. */
  lemma NoAcrs(config: Yaml, env: string)
    requires EnvConfig(config, env).Ok? && EnvConfig(config, env).value.Mapping?
    requires forall i :: 0 <= i < |EnvConfig(config, env).value.entries| ==> EnvConfig(config, env).value.entries[i].0 != "acrs"
    ensures AcrInfo(config, env) == Ok([])
  {
  }

  // ---------------------------------------------------------------------------
  // get_aks_info
  // ---------------------------------------------------------------------------

  /** What `get_aks_info` returns, or why it stops. */
  function AksInfo(config: Yaml, env: string): (r: Result<string>)
    ensures EnvConfig(config, env).Err? ==> r == Err(EnvConfig(config, env).error)
    ensures r.Err? ==> r.error == Malformed || r.error == EnvironmentNotFound(env) || r.error == NoAksConfiguration(env)
    ensures r.Ok? ==> exists fields :: |fields| == 4 && r.value == Join(fields, ":")
  {
    var envConfig := EnvConfig(config, env);
    if envConfig.Err? then Err(envConfig.error)
    else
      var aks := DictGet(envConfig.value, "aks", Mapping([]));
      if aks.Err? then Err(Malformed)
      else if !Truthy(aks.value) then Err(NoAksConfiguration(env))
      else
        var sub, rg := Field(aks.value, "subscription"), Field(aks.value, "resource_group");
        var cluster, inventory := Field(aks.value, "cluster_name"), Field(aks.value, "inventory_file");
        if sub.Err? || rg.Err? || cluster.Err? || inventory.Err? then Err(Malformed)
        else Ok(Join([sub.value, rg.value, cluster.value, inventory.value], ":"))
  }

  /**
   * `get_aks_info` stops with "No AKS configuration" exactly when the environment exists
   * and its `aks` entry is missing or empty.
   */
  lemma NoAksExactly(config: Yaml, env: string)
    ensures AksInfo(config, env) == Err(NoAksConfiguration(env)) <==>
      EnvConfig(config, env).Ok? && EnvConfig(config, env).value.Mapping?
      && !Truthy(Lookup(EnvConfig(config, env).value.entries, "aks").GetOr(Mapping([])))
  {
  }

  /** Both lookups of an environment agree with `list_environments` on which environments exist. */
  lemma EnvironmentsListed(config: Yaml, env: string)
    requires ListEnvironments(config).Ok?
    ensures env in ListEnvironments(config).value <==> AcrInfo(config, env) != Err(EnvironmentNotFound(env))
    ensures env in ListEnvironments(config).value <==> AksInfo(config, env) != Err(EnvironmentNotFound(env))
  {
    var r := EnvConfig(config, env);
    if r.Err? {
      assert r.error == EnvironmentNotFound(env);
    }
  }

  /** Without a readable `environments` mapping every lookup fails with an exception. */
  lemma NoEnvironments(config: Yaml, env: string)
    requires Environments(config).Err?
    ensures ListEnvironments(config) == Err(Malformed)
    ensures AcrInfo(config, env) == Err(Malformed) && AksInfo(config, env) == Err(Malformed)
  {
  }

  /**
   * The colon-separated records read back: splitting an ACR or AKS line at ':' gives its
   * fields when none of them holds a colon.
   */
  lemma {:induction false} ColonFields(parts: seq<string>)
    requires |parts| > 0 && forall i :: 0 <= i < |parts| ==> ':' !in parts[i]
    ensures Split(Join(parts, ":"), ":") == parts
    decreases |parts|
  {
    if |parts| == 1 {
      NotContainsChar(parts[0], ':');
      SplitNoSep(parts[0], ":");
    } else {
      var rest := parts[1..];
      ColonFields(rest);
      assert parts == [parts[0]] + rest;
      JoinCons(parts[0], rest, ":");
      SplitCons(parts[0], ":", Join(rest, ":"));
    }
  }

  // ---------------------------------------------------------------------------
  // get_specific_value
  // ---------------------------------------------------------------------------

  /** `current = current[key]` for each key in turn; `None` on a `KeyError` or `TypeError`. */
  function Follow(node: Yaml, keys: seq<string>): Option<Yaml>
    decreases |keys|
  {
    if keys == [] then Some(node)
    else if node.Mapping? && Lookup(node.entries, keys[0]).Some? then Follow(Lookup(node.entries, keys[0]).value, keys[1..])
    else None
  }

  /** What `get_specific_value` finds for a dot-separated path, before `str` prints it. */
  function SpecificValue(config: Yaml, path: string): (r: Result<Yaml>)
    ensures r.Err? ==> r.error == PathNotFound(path)
  {
    var v := Follow(config, Split(path, "."));
    if v.None? then Err(PathNotFound(path)) else Ok(v.value)
  }

  /** `get_specific_value`: the loop over the keys of the path. */
  method GetSpecificValue(config: Yaml, path: string) returns (r: Result<Yaml>)
    ensures r == SpecificValue(config, path)
  {
    var keys := Split(path, ".");
    var current := config;
    for i := 0 to |keys|
      invariant Follow(config, keys) == Follow(current, keys[i..])
    {
      var key := keys[i];
      assert keys[i..][1..] == keys[i + 1..];
      if !current.Mapping? || Lookup(current.entries, key).None? {
        return Err(PathNotFound(path));
      }
      current := Lookup(current.entries, key).value;
    }
    return Ok(current);
  }

  /** Following a path in two parts is following the first and then the second from there. */
  lemma {:induction false} FollowAppend(node: Yaml, a: seq<string>, b: seq<string>)
    ensures Follow(node, a + b) == (if Follow(node, a).None? then None else Follow(Follow(node, a).value, b))
    decreases |a|
  {
    if a != [] {
      assert (a + b)[0] == a[0] && (a + b)[1..] == a[1..] + b;
      if node.Mapping? && Lookup(node.entries, a[0]).Some? {
        FollowAppend(Lookup(node.entries, a[0]).value, a[1..], b);
      }
    } else {
      assert a + b == b;
    }
  }

  /** The path `environments.<env>` finds what the environment lookups use, for a name without dots. */
  lemma SpecificEnvironment(config: Yaml, env: string)
    requires '.' !in env
    requires Environments(config).Ok?
    ensures SpecificValue(config, "environments." + env) == (match EnvConfig(config, env)
      case Ok(v) => Ok(v)
      case Err(_) => Err(PathNotFound("environments." + env)))
  {
    var keys := Split("environments." + env, ".");
    assert "environments." + env == "environments" + "." + env;
    SplitCons("environments", ".", env);
    NotContainsChar(env, '.');
    SplitNoSep(env, ".");
    assert keys == ["environments", env];
    assert keys[1..] == [env] && keys[1..][1..] == [];
    var envs := Index(config, "environments").value;
    assert Follow(config, keys) == Follow(envs, [env]);
    var v := Lookup(envs.entries, env);
    if v.Some? {
      assert Follow(envs, [env]) == Follow(v.value, []) == Some(v.value);
    } else {
      assert Follow(envs, [env]) == None;
    }
  }

  // ---------------------------------------------------------------------------
  // get_inventory_by_source_type
  // ---------------------------------------------------------------------------

  /** What `for source in node` visits: a list's items, a mapping's keys, a string's characters. */
  function Iterated(node: Yaml): (r: Result<seq<Yaml>>)
    ensures r.Err? ==> r.error == Malformed
  {
    match node
    case Sequence(items) => Ok(items)
    case Mapping(es) => Ok(seq(|es|, i requires 0 <= i < |es| => Str(es[i].0)))
    case Str(s) => Ok(seq(|s|, i requires 0 <= i < |s| => Str([s[i]])))
    case _ => Err(Malformed)
  }

  /** `if env_name`: a given, non-empty environment name filters the sources. */
  predicate Filters(filter: Option<string>) { filter.Some? && filter.value != "" }

  /** Whether one source is taken: its type matches and, under a filter, so does its `env`. */
  function Takes(source: Yaml, sourceType: string, filter: Option<string>): (r: Result<bool>)
    ensures r.Err? <==> !source.Mapping?
    ensures r.Err? ==> r.error == Malformed
  {
    if !source.Mapping? then Err(Malformed)
    else
      Ok(Lookup(source.entries, "source_type") == Some(Str(sourceType))
         && (!Filters(filter) || Lookup(source.entries, "env") == Some(Str(filter.value))))
  }

  /** The first source taken gives its `inventory_file` (default ""); a non-mapping before it raises. */
  function FirstSource(sources: seq<Yaml>, sourceType: string, filter: Option<string>): Result<Yaml>
    decreases |sources|
  {
    if sources == [] then Err(SourceTypeNotFound(sourceType, filter))
    else
      var t := Takes(sources[0], sourceType, filter);
      if t.Err? then Err(Malformed)
      else if t.value then Ok(Lookup(sources[0].entries, "inventory_file").GetOr(Str("")))
      else FirstSource(sources[1..], sourceType, filter)
  }

  /** `config.get('master_inventory', {}).get('sources', [])`, as the loop visits it. */
  function Sources(config: Yaml): Result<seq<Yaml>> {
    var inventory := DictGet(config, "master_inventory", Mapping([]));
    if inventory.Err? then Err(Malformed)
    else
      var sources := DictGet(inventory.value, "sources", Sequence([]));
      if sources.Err? then Err(Malformed) else Iterated(sources.value)
  }

  function InventoryBySource(config: Yaml, sourceType: string, filter: Option<string>): Result<Yaml> {
    var sources := Sources(config);
    if sources.Err? then Err(Malformed) else FirstSource(sources.value, sourceType, filter)
  }

  /** `get_inventory_by_source_type`: the loop returns at the first source taken. */
  method GetInventoryBySourceType(config: Yaml, sourceType: string, filter: Option<string>) returns (r: Result<Yaml>)
    ensures r == InventoryBySource(config, sourceType, filter)
  {
    var sources := Sources(config);
    if sources.Err? {
      return Err(Malformed);
    }
    var items := sources.value;
    for i := 0 to |items|
      invariant FirstSource(items, sourceType, filter) == FirstSource(items[i..], sourceType, filter)
    {
      var source := items[i];
      assert items[i..][1..] == items[i + 1..];
      if !source.Mapping? {
        return Err(Malformed);
      }
      if Lookup(source.entries, "source_type") == Some(Str(sourceType)) {
        if filter.Some? && filter.value != "" && Lookup(source.entries, "env") != Some(Str(filter.value)) {
          continue;
        }
        return Ok(Lookup(source.entries, "inventory_file").GetOr(Str("")));
      }
    }
    return Err(SourceTypeNotFound(sourceType, filter));
  }

  /**
   * A found inventory file comes from a source that is taken, and every source before it
   * is a mapping that is not taken.
   */
  lemma {:induction false} FirstSourceTaken(sources: seq<Yaml>, sourceType: string, filter: Option<string>) returns (i: nat)
    requires FirstSource(sources, sourceType, filter).Ok?
    ensures i < |sources| && Takes(sources[i], sourceType, filter) == Ok(true)
    ensures FirstSource(sources, sourceType, filter).value == Lookup(sources[i].entries, "inventory_file").GetOr(Str(""))
    ensures forall j :: 0 <= j < i ==> Takes(sources[j], sourceType, filter) == Ok(false)
    decreases |sources|
  {
    if Takes(sources[0], sourceType, filter) == Ok(true) {
      i := 0;
    } else {
      var k := FirstSourceTaken(sources[1..], sourceType, filter);
      i := k + 1;
    }
  }

  /** With nothing taken, the lookup reports the source type and the filter it was given. */
  lemma {:induction false} NoSourceTaken(sources: seq<Yaml>, sourceType: string, filter: Option<string>)
    requires forall j :: 0 <= j < |sources| ==> Takes(sources[j], sourceType, filter) == Ok(false)
    ensures FirstSource(sources, sourceType, filter) == Err(SourceTypeNotFound(sourceType, filter))
    decreases |sources|
  {
    if sources != [] {
      NoSourceTaken(sources[1..], sourceType, filter);
    }
  }

  /**
   * Filtering by environment only narrows the search: what is found under a filter is
   * found, at the same source or an earlier one, without it.
   */
  lemma {:induction false} FilterNarrows(sources: seq<Yaml>, sourceType: string, env: string)
    requires FirstSource(sources, sourceType, Some(env)).Ok?
    ensures FirstSource(sources, sourceType, None).Ok?
    decreases |sources|
  {
    if Takes(sources[0], sourceType, Some(env)) != Ok(true) {
      FilterNarrows(sources[1..], sourceType, env);
    }
  }

  /** An empty environment name filters nothing, as when none is given. */
  lemma {:induction false} EmptyFilter(sources: seq<Yaml>, sourceType: string)
    ensures FirstSource(sources, sourceType, Some("")) == match FirstSource(sources, sourceType, None)
      case Err(SourceTypeNotFound(_, _)) => Err(SourceTypeNotFound(sourceType, Some("")))
      case other => other
    decreases |sources|
  {
    if sources != [] {
      EmptyFilter(sources[1..], sourceType);
    }
  }
}
