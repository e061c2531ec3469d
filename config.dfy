/**
 * Project configuration: the YAML settings tree with dotted-path lookup and
 * defaults, the recursive merge that `update_config` applies, the check of
 * the required environment variables, and the settings getters.
 * Reading `.env` and the YAML file, writing the file back and setting up
 * logging are not part of this model: the environment and the parsed YAML
 * arrive as values.
 */
module Config {
  import opened Wrappers
  import opened Text

  /** A parsed YAML value; mapping keys are strings. */
  datatype Yaml =
    | Null
    | Bool(b: bool)
    | Int(i: int)
    | Str(s: string)
    | List(items: seq<Yaml>)
    | Dict(entries: map<string, Yaml>)

  // ---- Nested lookup ----

  /** Every segment of `path` is a key of a mapping on the way down from `v`. */
  predicate HasPath(v: Yaml, path: seq<string>)
    decreases |path|
  {
    path == [] || (v.Dict? && path[0] in v.entries && HasPath(v.entries[path[0]], path[1..]))
  }

  /** The value at the end of `path`. */
  function ValueAt(v: Yaml, path: seq<string>): Yaml
    requires HasPath(v, path)
    decreases |path|
  {
    if path == [] then v else ValueAt(v.entries[path[0]], path[1..])
  }

  /** One more segment extends a path exactly when the value reached so far is a mapping holding that key. */
  lemma {:induction false} HasPathSnoc(v: Yaml, path: seq<string>, key: string)
    ensures HasPath(v, path + [key]) <==>
              HasPath(v, path) && ValueAt(v, path).Dict? && key in ValueAt(v, path).entries
    ensures HasPath(v, path + [key]) ==> ValueAt(v, path + [key]) == ValueAt(v, path).entries[key]
    decreases |path|
  {
    if path == [] {
      assert path + [key] == [key];
      assert [key][1..] == [];
    } else {
      assert (path + [key])[0] == path[0];
      assert (path + [key])[1..] == path[1..] + [key];
      if v.Dict? && path[0] in v.entries {
        HasPathSnoc(v.entries[path[0]], path[1..], key);
      }
    }
  }

  /** `_get_yaml_value(key_path, default)`, stated on the tree. */
  function YamlValue(config: Yaml, keyPath: string, default: Yaml): Yaml {
    var keys := Split(keyPath, '.');
    if HasPath(config, keys) then ValueAt(config, keys) else default
  }

  /** A dotted path whose segments hold no dot names exactly those segments. */
  lemma DottedPath(keys: seq<string>, config: Yaml, default: Yaml)
    requires |keys| >= 1
    requires forall i :: 0 <= i < |keys| ==> '.' !in keys[i]
    ensures Split(Join(keys, '.'), '.') == keys
    ensures YamlValue(config, Join(keys, '.'), default) ==
              if HasPath(config, keys) then ValueAt(config, keys) else default
  {
    SplitJoin(keys, '.');
  }

  // ---- deep_merge ----

  /** The mapping `deep_merge(base, updates)` leaves in `base`. */
  function MergeMaps(base: map<string, Yaml>, updates: map<string, Yaml>): (merged: map<string, Yaml>)
    ensures merged.Keys == base.Keys + updates.Keys
    decreases Dict(updates)
  {
    map k | k in base.Keys + updates.Keys ::
      if k !in updates then base[k]
      else if k in base && base[k].Dict? && updates[k].Dict? then Dict(MergeMaps(base[k].entries, updates[k].entries))
      else updates[k]
  }

  /** Keys that only `base` has keep their values; an update that is not a mapping on both sides replaces the old value. */
  lemma MergeMapsEntries(base: map<string, Yaml>, updates: map<string, Yaml>, k: string)
    ensures k in base && k !in updates ==> MergeMaps(base, updates)[k] == base[k]
    ensures k in updates && !(k in base && base[k].Dict? && updates[k].Dict?) ==>
              MergeMaps(base, updates)[k] == updates[k]
    ensures k in updates && k in base && base[k].Dict? && updates[k].Dict? ==>
              MergeMaps(base, updates)[k] == Dict(MergeMaps(base[k].entries, updates[k].entries))
  {
  }

  /** After the merge, every non-mapping value in `updates` is found at its path. */
  lemma {:induction false} MergeMapsLeaf(base: map<string, Yaml>, updates: map<string, Yaml>, path: seq<string>)
    requires path != []
    requires HasPath(Dict(updates), path) && !ValueAt(Dict(updates), path).Dict?
    ensures HasPath(Dict(MergeMaps(base, updates)), path)
    ensures ValueAt(Dict(MergeMaps(base, updates)), path) == ValueAt(Dict(updates), path)
    decreases |path|
  {
    var k := path[0];
    var merged := MergeMaps(base, updates);
    var u := updates[k];
    if k in base && base[k].Dict? && u.Dict? {
      assert merged[k] == Dict(MergeMaps(base[k].entries, u.entries));
      MergeMapsLeaf(base[k].entries, u.entries, path[1..]);
    } else {
      assert merged[k] == u;
    }
  }

  /** The same, through the dotted key the getters use. */
  lemma MergedLeafLookup(base: map<string, Yaml>, updates: map<string, Yaml>, keys: seq<string>, default: Yaml)
    requires keys != []
    requires forall i :: 0 <= i < |keys| ==> '.' !in keys[i]
    requires HasPath(Dict(updates), keys) && !ValueAt(Dict(updates), keys).Dict?
    ensures YamlValue(Dict(MergeMaps(base, updates)), Join(keys, '.'), default) == ValueAt(Dict(updates), keys)
  {
    MergeMapsLeaf(base, updates, keys);
    DottedPath(keys, Dict(MergeMaps(base, updates)), default);
  }

  /** Merging the same updates twice changes nothing more. */
  lemma {:induction false} MergeMapsIdempotent(base: map<string, Yaml>, updates: map<string, Yaml>)
    ensures MergeMaps(MergeMaps(base, updates), updates) == MergeMaps(base, updates)
    decreases Dict(updates)
  {
    var once := MergeMaps(base, updates);
    var twice := MergeMaps(once, updates);
    forall k | k in twice.Keys
      ensures twice[k] == once[k]
    {
      if k in updates && updates[k].Dict? {
        if k in base && base[k].Dict? {
          MergeMapsIdempotent(base[k].entries, updates[k].entries);
        } else {
          MergeMapsSelf(updates[k].entries);
        }
      }
    }
  }

  /** Merging a mapping into itself gives it back. */
  lemma {:induction false} MergeMapsSelf(m: map<string, Yaml>)
    ensures MergeMaps(m, m) == m
    decreases Dict(m)
  {
    forall k | k in m
      ensures MergeMaps(m, m)[k] == m[k]
    {
      if m[k].Dict? { MergeMapsSelf(m[k].entries); }
    }
  }

  /** `deep_merge(base, updates)`, one key of `updates` at a time, recursing into mappings on both sides. */
  method DeepMerge(base: map<string, Yaml>, updates: map<string, Yaml>) returns (merged: map<string, Yaml>)
    ensures merged == MergeMaps(base, updates)
    decreases Dict(updates)
  {
    merged := base;
    var pending := updates.Keys;
    while pending != {}
      invariant pending <= updates.Keys
      invariant merged.Keys == base.Keys + (updates.Keys - pending)
      invariant forall k :: k in merged && k !in updates.Keys - pending ==> merged[k] == base[k]
      invariant forall k :: k in updates.Keys - pending ==> merged[k] == MergeMaps(base, updates)[k]
      decreases pending
    {
      var key :| key in pending;
      var value := updates[key];
      if key in merged && merged[key].Dict? && value.Dict? {
        var inner := DeepMerge(merged[key].entries, value.entries);
        merged := merged[key := Dict(inner)];
      } else {
        merged := merged[key := value];
      }
      pending := pending - {key};
    }
  }

  // ---- Required environment variables ----

  const RequiredVariables: seq<string> := ["OBSIDIAN_API_HOST", "OBSIDIAN_API_KEY"]

  /** `os.getenv(name)` is falsy: unset or empty. */
  predicate Unset(env: map<string, string>, name: string) {
    name !in env || env[name] == ""
  }

  function MissingFrom(env: map<string, string>, names: seq<string>): (missing: seq<string>)
    ensures forall n :: n in missing <==> n in names && Unset(env, n)
  {
    if names == [] then []
    else (if Unset(env, names[0]) then [names[0]] else []) + MissingFrom(env, names[1..])
  }

  function MissingMessage(missing: seq<string>): string {
    "Required environment variables missing: " + JoinWith(missing, ", ") + "\n"
      + "Please create a .env file with these variables or set them in your environment."
  }

  /** `", ".join(items)`. */
  function JoinWith(items: seq<string>, sep: string): string {
    if items == [] then ""
    else if |items| == 1 then items[0]
    else items[0] + sep + JoinWith(items[1..], sep)
  }

  /** `_validate_config()`: fails, naming the missing variables in order, iff host or key is unset or empty. */
  function ValidateConfig(env: map<string, string>): (r: Outcome<string>)
    ensures r.Fail? <==> Unset(env, "OBSIDIAN_API_HOST") || Unset(env, "OBSIDIAN_API_KEY")
    ensures r.Fail? && Unset(env, "OBSIDIAN_API_HOST") && Unset(env, "OBSIDIAN_API_KEY") ==>
              r.error == MissingMessage(["OBSIDIAN_API_HOST", "OBSIDIAN_API_KEY"])
    ensures r.Fail? && !Unset(env, "OBSIDIAN_API_HOST") ==> r.error == MissingMessage(["OBSIDIAN_API_KEY"])
    ensures r.Fail? && !Unset(env, "OBSIDIAN_API_KEY") ==> r.error == MissingMessage(["OBSIDIAN_API_HOST"])
  {
    var missing := MissingFrom(env, RequiredVariables);
    MissingRequired(env);
    if missing != [] then Fail(MissingMessage(missing)) else Pass
  }

  /** The required variables that are missing, host first. */
  lemma MissingRequired(env: map<string, string>)
    ensures var missing := MissingFrom(env, RequiredVariables);
            && (missing == [] <==> !Unset(env, "OBSIDIAN_API_HOST") && !Unset(env, "OBSIDIAN_API_KEY"))
            && (Unset(env, "OBSIDIAN_API_HOST") && Unset(env, "OBSIDIAN_API_KEY") ==> missing == ["OBSIDIAN_API_HOST", "OBSIDIAN_API_KEY"])
            && (!Unset(env, "OBSIDIAN_API_HOST") && Unset(env, "OBSIDIAN_API_KEY") ==> missing == ["OBSIDIAN_API_KEY"])
            && (Unset(env, "OBSIDIAN_API_HOST") && !Unset(env, "OBSIDIAN_API_KEY") ==> missing == ["OBSIDIAN_API_HOST"])
  {
    var host, key := "OBSIDIAN_API_HOST", "OBSIDIAN_API_KEY";
    assert RequiredVariables[1..] == [key];
    assert [key][1..] == [] && [host][1..] == [];
    assert MissingFrom(env, [key]) == (if Unset(env, key) then [key] else []) + MissingFrom(env, []);
    assert MissingFrom(env, [host]) == (if Unset(env, host) then [host] else []) + MissingFrom(env, []);
  }

  // ---- Settings and their defaults ----

  /** The settings read from the YAML tree, one per getter. */
  datatype Setting =
    | VaultProjectPath | LocalNotesDir | SyncIntervalSeconds | ConflictResolution | CreateBackup
    | LogLevel | LogFile | MaxFileSizeMb | BackupCount | IncludeExtensions | ExcludePatterns
    | MaxBackups | CleanupOldBackups | BackupBeforeSync | EnableSlack | EnableDiscord
    | NotifyOnSuccess | NotifyOnError

  /** The getter's section and key. */
  function Key(g: Setting): (k: (string, string))
    ensures '.' !in k.0 && '.' !in k.1
  {
    match g
    case VaultProjectPath => ("obsidian", "vault_project_path")
    case LocalNotesDir => ("obsidian", "local_notes_dir")
    case SyncIntervalSeconds => ("sync", "interval_seconds")
    case ConflictResolution => ("sync", "conflict_resolution")
    case CreateBackup => ("sync", "create_backup")
    case LogLevel => ("logging", "level")
    case LogFile => ("logging", "file")
    case MaxFileSizeMb => ("logging", "max_file_size_mb")
    case BackupCount => ("logging", "backup_count")
    case IncludeExtensions => ("filters", "include_extensions")
    case ExcludePatterns => ("filters", "exclude_patterns")
    case MaxBackups => ("backup", "max_backups")
    case CleanupOldBackups => ("backup", "cleanup_old_backups")
    case BackupBeforeSync => ("backup", "backup_before_sync")
    case EnableSlack => ("notifications", "enable_slack")
    case EnableDiscord => ("notifications", "enable_discord")
    case NotifyOnSuccess => ("notifications", "notify_on_success")
    case NotifyOnError => ("notifications", "notify_on_error")
  }

  /** The getter's dotted key path, as the source spells it. */
  function KeyPath(g: Setting): string {
    Key(g).0 + "." + Key(g).1
  }

  const DefaultExcludes: seq<string> := [".*", "*.tmp", "*.bak"]

  /** The fallback the getter passes to `_get_yaml_value`. */
  function Default(g: Setting, projectName: string): Yaml {
    match g
    case VaultProjectPath => Str("10-Projects/" + projectName)
    case LocalNotesDir => Str("notes")
    case SyncIntervalSeconds => Int(30)
    case ConflictResolution => Str("newer_wins")
    case CreateBackup => Bool(true)
    case LogLevel => Str("INFO")
    case LogFile => Str("logs/obsidian_sync.log")
    case MaxFileSizeMb => Int(10)
    case BackupCount => Int(5)
    case IncludeExtensions => List([Str(".md")])
    case ExcludePatterns => List([Str(".*"), Str("*.tmp"), Str("*.bak")])
    case MaxBackups => Int(10)
    case CleanupOldBackups => Bool(true)
    case BackupBeforeSync => Bool(true)
    case EnableSlack => Bool(false)
    case EnableDiscord => Bool(false)
    case NotifyOnSuccess => Bool(false)
    case NotifyOnError => Bool(true)
  }

  /** The getter for `g`: the YAML value at its key if every segment is present, its default otherwise. */
  function Get(config: Yaml, projectName: string, g: Setting): (v: Yaml)
    ensures HasPath(config, [Key(g).0, Key(g).1]) ==> v == ValueAt(config, [Key(g).0, Key(g).1])
    ensures !HasPath(config, [Key(g).0, Key(g).1]) ==> v == Default(g, projectName)
  {
    KeySplits(g);
    YamlValue(config, KeyPath(g), Default(g, projectName))
  }

  lemma KeySplits(g: Setting)
    ensures Split(KeyPath(g), '.') == [Key(g).0, Key(g).1]
  {
    var (section, key) := Key(g);
    TwoPartSplit(section, key);
  }

  /** A dotted path of two dot-free segments splits into those segments. */
  lemma TwoPartSplit(section: string, key: string)
    requires '.' !in section && '.' !in key
    ensures Split(section + "." + key, '.') == [section, key]
  {
    var keys := [section, key];
    assert Join(keys, '.') == section + "." + key by { assert keys[1..] == [key]; }
    SplitJoin(keys, '.');
  }

  /** `_get_default_config()`: the tree written when no configuration file exists. */
  function DefaultConfig(projectName: string): Yaml {
    Dict(map[
      "obsidian" := Dict(map[
        "vault_project_path" := Str("10-Projects/" + projectName),
        "local_notes_dir" := Str("notes")]),
      "sync" := Dict(map[
        "interval_seconds" := Int(30),
        "conflict_resolution" := Str("newer_wins"),
        "create_backup" := Bool(true)]),
      "logging" := Dict(map[
        "level" := Str("INFO"),
        "file" := Str("logs/obsidian_sync.log"),
        "max_file_size_mb" := Int(10),
        "backup_count" := Int(5)]),
      "filters" := Dict(map[
        "include_extensions" := List([Str(".md")]),
        "exclude_patterns" := List([Str(".*"), Str("*.tmp"), Str("*.bak")])]),
      "backup" := Dict(map[
        "max_backups" := Int(10),
        "cleanup_old_backups" := Bool(true),
        "backup_before_sync" := Bool(true)]),
      "notifications" := Dict(map[
        "enable_slack" := Bool(false),
        "enable_discord" := Bool(false),
        "notify_on_success" := Bool(false),
        "notify_on_error" := Bool(true)])
    ])
  }

  /** A two-segment path, spelled out. */
  lemma TwoSegments(v: Yaml, section: string, key: string)
    ensures HasPath(v, [section, key]) <==>
              v.Dict? && section in v.entries && v.entries[section].Dict? && key in v.entries[section].entries
    ensures HasPath(v, [section, key]) ==> ValueAt(v, [section, key]) == v.entries[section].entries[key]
  {
    var path := [section, key];
    assert path[0] == section && path[1..] == [key];
    assert [key][0] == key && [key][1..] == [];
    if v.Dict? && section in v.entries {
      var inner := v.entries[section];
      assert HasPath(v, path) == HasPath(inner, [key]);
      if inner.Dict? && key in inner.entries {
        assert HasPath(inner, [key]);
        assert ValueAt(inner, [key]) == ValueAt(inner.entries[key], []);
      }
    }
  }

  /** The default file and the getters' fallbacks agree on every setting, so a missing file and an empty one read the same. */
  lemma DefaultsAgree(projectName: string, g: Setting)
    ensures Get(DefaultConfig(projectName), projectName, g) == Default(g, projectName)
    ensures Get(Dict(map[]), projectName, g) == Default(g, projectName)
  {
    DefaultFileAgrees(projectName, g);
    TwoSegments(Dict(map[]), Key(g).0, Key(g).1);
  }

  /** The default file holds the getter's fallback under the getter's section and key. */
  predicate DefaultEntry(projectName: string, g: Setting) {
    var d := DefaultConfig(projectName);
    && Key(g).0 in d.entries && d.entries[Key(g).0].Dict?
    && Key(g).1 in d.entries[Key(g).0].entries
    && d.entries[Key(g).0].entries[Key(g).1] == Default(g, projectName)
  }

  /** The default file holds each getter's fallback at the getter's key. */
  lemma DefaultFileAgrees(projectName: string, g: Setting)
    ensures Get(DefaultConfig(projectName), projectName, g) == Default(g, projectName)
  {
    TwoSegments(DefaultConfig(projectName), Key(g).0, Key(g).1);
    if g.VaultProjectPath? || g.LocalNotesDir? {
      ObsidianDefaults(projectName, g);
    } else if g.SyncIntervalSeconds? || g.ConflictResolution? || g.CreateBackup? {
      SyncDefaults(projectName, g);
    } else if g.LogLevel? || g.LogFile? {
      LoggingDefaults(projectName, g);
    } else if g.MaxFileSizeMb? || g.BackupCount? {
      RotationDefaults(projectName, g);
    } else if g.IncludeExtensions? || g.ExcludePatterns? {
      FiltersDefaults(projectName, g);
    } else if g.MaxBackups? || g.CleanupOldBackups? || g.BackupBeforeSync? {
      BackupDefaults(projectName, g);
    } else if g.EnableSlack? || g.EnableDiscord? {
      NotificationsDefaults(projectName, g);
    } else {
      TriggerDefaults(projectName, g);
    }
  }

  /** The `obsidian` section of the default file. */
  lemma ObsidianDefaults(projectName: string, g: Setting)
    requires g.VaultProjectPath? || g.LocalNotesDir?
    ensures DefaultEntry(projectName, g)
  {
  }

  /** The `sync` section of the default file. */
  lemma SyncDefaults(projectName: string, g: Setting)
    requires g.SyncIntervalSeconds? || g.ConflictResolution? || g.CreateBackup?
    ensures DefaultEntry(projectName, g)
  {
  }

  /** The `logging` section of the default file. */
  lemma LoggingDefaults(projectName: string, g: Setting)
    requires g.LogLevel? || g.LogFile?
    ensures DefaultEntry(projectName, g)
  {
  }

  /** The log rotation settings of the `logging` section. */
  lemma RotationDefaults(projectName: string, g: Setting)
    requires g.MaxFileSizeMb? || g.BackupCount?
    ensures DefaultEntry(projectName, g)
  {
  }

  /** The `filters` section of the default file. */
  lemma FiltersDefaults(projectName: string, g: Setting)
    requires g.IncludeExtensions? || g.ExcludePatterns?
    ensures DefaultEntry(projectName, g)
  {
  }

  /** The `backup` section of the default file. */
  lemma BackupDefaults(projectName: string, g: Setting)
    requires g.MaxBackups? || g.CleanupOldBackups? || g.BackupBeforeSync?
    ensures DefaultEntry(projectName, g)
  {
  }

  /** The channels of the `notifications` section of the default file. */
  lemma NotificationsDefaults(projectName: string, g: Setting)
    requires g.EnableSlack? || g.EnableDiscord?
    ensures DefaultEntry(projectName, g)
  {
  }

  /** When the `notifications` section asks for a message. */
  lemma TriggerDefaults(projectName: string, g: Setting)
    requires g.NotifyOnSuccess? || g.NotifyOnError?
    ensures DefaultEntry(projectName, g)
  {
  }

  /** A YAML file naming a vault path and an interval, and nothing else under `sync`, reads as in the project's test. */
  lemma CustomFileOverrides(projectName: string)
    ensures var config := Dict(map[
              "obsidian" := Dict(map["vault_project_path" := Str("custom-project"), "local_notes_dir" := Str("custom-notes")]),
              "sync" := Dict(map["interval_seconds" := Int(60)])]);
            && Get(config, projectName, VaultProjectPath) == Str("custom-project")
            && Get(config, projectName, SyncIntervalSeconds) == Int(60)
            && Get(config, projectName, ConflictResolution) == Str("newer_wins")
            && Get(config, projectName, MaxBackups) == Int(10)
  {
    var config := Dict(map[
      "obsidian" := Dict(map["vault_project_path" := Str("custom-project"), "local_notes_dir" := Str("custom-notes")]),
      "sync" := Dict(map["interval_seconds" := Int(60)])]);
    TwoSegments(config, "obsidian", "vault_project_path");
    TwoSegments(config, "sync", "interval_seconds");
    TwoSegments(config, "sync", "conflict_resolution");
    TwoSegments(config, "backup", "max_backups");
  }

  /** What the configuration file held. */
  datatype YamlFile = NoFile | Parsed(v: Yaml) | Malformed(detail: string)

  /** Python's truthiness for `yaml.safe_load(f) or {}`. */
  predicate Falsy(v: Yaml) {
    v.Null? || v == Bool(false) || v == Int(0) || v == Str("") || v == List([]) || v == Dict(map[])
  }

  /** The tree `_load_yaml_config` settles on: the default tree for a missing file, `{}` for an empty or falsy one. */
  function InitialYaml(file: YamlFile, projectName: string): Yaml
    requires !file.Malformed?
  {
    match file
    case NoFile => DefaultConfig(projectName)
    case Parsed(v) => if Falsy(v) then Dict(map[]) else v
  }

  datatype ConfigError = YamlParseError(path: string, detail: string) | MissingVariables(message: string)

  class ProjectConfig {
    const projectRoot: string
    const env: map<string, string>
    var yamlConfig: Yaml

    constructor (projectRoot: string, env: map<string, string>, yamlConfig: Yaml)
      ensures this.projectRoot == projectRoot && this.env == env && this.yamlConfig == yamlConfig
    {
      this.projectRoot := projectRoot;
      this.env := env;
      this.yamlConfig := yamlConfig;
    }

    /** `self.project_root.name`. */
    function ProjectName(): string {
      Basename(projectRoot)
    }

    /** `_get_yaml_value(key_path, default)`: walk the segments while the value is a mapping holding the next one. */
    method GetYamlValue(keyPath: string, default: Yaml) returns (value: Yaml)
      ensures value == YamlValue(yamlConfig, keyPath, default)
    {
      var keys := Split(keyPath, '.');
      value := yamlConfig;
      var i := 0;
      while i < |keys|
        invariant 0 <= i <= |keys|
        invariant HasPath(yamlConfig, keys[..i]) && value == ValueAt(yamlConfig, keys[..i])
      {
        HasPathSnoc(yamlConfig, keys[..i], keys[i]);
        assert keys[..i + 1] == keys[..i] + [keys[i]];
        if value.Dict? && keys[i] in value.entries {
          value := value.entries[keys[i]];
          i := i + 1;
        } else {
          PathThrough(yamlConfig, keys, i);
          return default;
        }
      }
      assert keys[..i] == keys;
    }

    /** The settings getters (`conflict_resolution`, `max_backups`, ...). */
    function Setting(g: Setting): Yaml
      reads this
    {
      Get(yamlConfig, ProjectName(), g)
    }

    /** `local_notes_dir`: the project root joined with the configured directory (default `notes`); a non-string setting makes the join fail. */
    function LocalNotesDirPath(): (p: Option<string>)
      reads this
      ensures !HasPath(yamlConfig, ["obsidian", "local_notes_dir"]) ==> p == Some(JoinPath(projectRoot, "notes"))
      ensures HasPath(yamlConfig, ["obsidian", "local_notes_dir"]) ==>
                var v := ValueAt(yamlConfig, ["obsidian", "local_notes_dir"]);
                (v.Str? ==> p == Some(JoinPath(projectRoot, v.s))) && (!v.Str? ==> p == None)
    {
      match Setting(LocalNotesDir)
      case Str(dir) => Some(JoinPath(projectRoot, dir))
      case _ => None
    }

    /** `obsidian_api_host`: the environment's value when set, even if empty. */
    function ApiHost(): string
      reads this
    {
      if "OBSIDIAN_API_HOST" in env then env["OBSIDIAN_API_HOST"] else "https://localhost:27124"
    }

    /** `obsidian_api_key`. */
    function ApiKey(): string
      reads this
    {
      if "OBSIDIAN_API_KEY" in env then env["OBSIDIAN_API_KEY"] else ""
    }

    /** `update_config(updates)` without saving: merges `updates` into the tree; a tree that is not a mapping cannot take a key. */
    method UpdateConfig(updates: map<string, Yaml>) returns (ok: bool)
      modifies this`yamlConfig
      ensures ok <==> old(yamlConfig).Dict? || updates == map[]
      ensures old(yamlConfig).Dict? ==> yamlConfig == Dict(MergeMaps(old(yamlConfig).entries, updates))
      ensures !old(yamlConfig).Dict? ==> yamlConfig == old(yamlConfig)
    {
      if yamlConfig.Dict? {
        var merged := DeepMerge(yamlConfig.entries, updates);
        yamlConfig := Dict(merged);
        ok := true;
      } else {
        ok := updates == map[];
      }
    }
  }

  /** A full path passes through the mapping reached after its first `i` segments. */
  lemma PathThrough(v: Yaml, keys: seq<string>, i: nat)
    requires i < |keys|
    ensures HasPath(v, keys) ==>
              HasPath(v, keys[..i]) && ValueAt(v, keys[..i]).Dict? && keys[i] in ValueAt(v, keys[..i]).entries
  {
    if HasPath(v, keys) {
      PrefixPath(v, keys, i + 1);
      HasPathSnoc(v, keys[..i], keys[i]);
      assert keys[..i + 1] == keys[..i] + [keys[i]];
    }
  }

  lemma {:induction false} PrefixPath(v: Yaml, keys: seq<string>, n: nat)
    requires n <= |keys|
    requires HasPath(v, keys)
    ensures HasPath(v, keys[..n])
    decreases n
  {
    if n > 0 {
      assert keys[..n][0] == keys[0];
      assert keys[..n][1..] == keys[1..][..n - 1];
      PrefixPath(v.entries[keys[0]], keys[1..], n - 1);
    }
  }

  /** `ProjectConfig(project_root)`: the YAML error comes first, then the missing variables. */
  method Load(projectRoot: string, env: map<string, string>, configPath: string, file: YamlFile)
    returns (r: Result<ProjectConfig, ConfigError>)
    ensures file.Malformed? ==> r == Failure(YamlParseError(configPath, file.detail))
    ensures !file.Malformed? && ValidateConfig(env).Fail? ==> r == Failure(MissingVariables(ValidateConfig(env).error))
    ensures r.Success? <==> !file.Malformed? && ValidateConfig(env).Pass?
    ensures r.Success? ==> fresh(r.value) && r.value.projectRoot == projectRoot && r.value.env == env
                           && r.value.yamlConfig == InitialYaml(file, Basename(projectRoot))
  {
    if file.Malformed? {
      return Failure(YamlParseError(configPath, file.detail));
    }
    var yaml := InitialYaml(file, Basename(projectRoot));
    var validation := ValidateConfig(env);
    if validation.Fail? {
      return Failure(MissingVariables(validation.error));
    }
    var c := new ProjectConfig(projectRoot, env, yaml);
    return Success(c);
  }
}
