/**
 * The configuration merge at the start of `main` (main.go): settings from
 * livereload.toml are overridden by non-empty command-line flags, the list
 * flags are split on commas, empty lists get defaults, a missing run command
 * is fatal, and the ignore list becomes the ignore map used by the watcher
 * and the event filter. Reading the file and parsing the flags are left
 * out: their results are the inputs here.
 */
module Config {
  import opened Wrappers
  import opened GoStrings
  import opened Events

  /** The `Config` struct as decoded from livereload.toml (zero values for missing keys). */
  datatype FileConfig = FileConfig(build: string, run: string, watch: seq<string>, ignore: seq<string>)

  /** The four string flags; each defaults to "". */
  datatype Flags = Flags(build: string, run: string, watch: string, ignore: string)

  /** What `main` goes on with: the merged configuration and the ignore map built from it. */
  datatype Settings = Settings(cfg: FileConfig, ignoreMap: IgnoreMap)

  const RunRequired: string := "Error: --run flag or 'run' in livereload.toml is required"
  const DefaultWatch: seq<string> := ["."]
  const DefaultIgnore: seq<string> := [".git", "node_modules"]

  // ---------------------------------------------------------------------------
  // Reference definition of the merge

  /** A flag wins when it is set. */
  function Pick(flag: string, file: string): string {
    if flag != "" then flag else file
  }

  /** A list flag wins when it is set, as its comma-separated pieces. */
  function PickList(flag: string, file: seq<string>): seq<string> {
    if flag != "" then Split(flag, ',') else file
  }

  function OrDefault(list: seq<string>, default: seq<string>): seq<string> {
    if |list| == 0 then default else list
  }

  /** The configuration after the overrides and the defaults. */
  function Merge(file: FileConfig, flags: Flags): (r: FileConfig)
    ensures |r.watch| >= 1 && |r.ignore| >= 1
    ensures r.run == "" <==> file.run == "" && flags.run == ""
  {
    FileConfig(
      Pick(flags.build, file.build),
      Pick(flags.run, file.run),
      OrDefault(PickList(flags.watch, file.watch), DefaultWatch),
      OrDefault(PickList(flags.ignore, file.ignore), DefaultIgnore))
  }

  /** The keys of the ignore map: every ignore entry with surrounding white space removed. */
  function IgnoreKeys(dirs: seq<string>): set<string> {
    set d | d in dirs :: TrimSpace(d)
  }

  function IgnoreMapOf(dirs: seq<string>): IgnoreMap {
    map k | k in IgnoreKeys(dirs) :: true
  }

  /** The outcome of the merge: fatal without a run command, else the settings. */
  function Settle(file: FileConfig, flags: Flags): (r: Result<Settings>)
    ensures r.Err? <==> file.run == "" && flags.run == ""
    ensures r.Err? ==> r.error == RunRequired
    ensures r.Ok? ==> r.value.cfg.run != "" && r.value.ignoreMap.Keys == IgnoreKeys(r.value.cfg.ignore)
  {
    var cfg := Merge(file, flags);
    if cfg.run == "" then Err(RunRequired) else Ok(Settings(cfg, IgnoreMapOf(cfg.ignore)))
  }

  // ---------------------------------------------------------------------------
  // The code of `main`, step by step

  /** `for _, dir := range cfg.Ignore { ignoreMap[strings.TrimSpace(dir)] = true }` */
  method BuildIgnoreMap(dirs: seq<string>) returns (m: IgnoreMap)
    ensures m.Keys == IgnoreKeys(dirs)
    ensures forall k :: k in m ==> m[k]
    ensures forall j :: 0 <= j < |dirs| ==> Lookup(m, TrimSpace(dirs[j]))
    ensures m == IgnoreMapOf(dirs)
  {
    m := map[];
    var i := 0;
    while i < |dirs|
      invariant 0 <= i <= |dirs|
      invariant m.Keys == IgnoreKeys(dirs[..i])
      invariant forall k :: k in m ==> m[k]
    {
      assert dirs[..i + 1] == dirs[..i] + [dirs[i]];
      m := m[TrimSpace(dirs[i]) := true];
      i := i + 1;
    }
    assert dirs[..i] == dirs;
  }

  /**
   * Lines 45-74 of `main`: the flags overwrite the fields of `cfg` one by
   * one, the defaults fill empty lists, an empty run command ends the
   * program with `RunRequired`, and the ignore map is built.
   */
  method LoadSettings(file: FileConfig, flags: Flags) returns (r: Result<Settings>)
    ensures r == Settle(file, flags)
    ensures r.Err? <==> file.run == "" && flags.run == ""
    ensures r.Err? ==> r.error == RunRequired
  {
    var cfg := file;
    if flags.build != "" {
      cfg := cfg.(build := flags.build);
    }
    if flags.run != "" {
      cfg := cfg.(run := flags.run);
    }
    if flags.watch != "" {
      cfg := cfg.(watch := Split(flags.watch, ','));
    }
    if flags.ignore != "" {
      cfg := cfg.(ignore := Split(flags.ignore, ','));
    }
    if |cfg.watch| == 0 {
      cfg := cfg.(watch := DefaultWatch);
    }
    if |cfg.ignore| == 0 {
      cfg := cfg.(ignore := DefaultIgnore);
    }
    if cfg.run == "" {
      return Err(RunRequired);  // log.Fatal
    }
    var ignoreMap := BuildIgnoreMap(cfg.ignore);
    return Ok(Settings(cfg, ignoreMap));
  }

  // ---------------------------------------------------------------------------
  // Properties of the merge

  /** Each set flag replaces the file value; each empty flag leaves the file value in place. */
  lemma FlagPrecedence(file: FileConfig, flags: Flags)
    ensures var cfg := Merge(file, flags);
            (flags.build != "" ==> cfg.build == flags.build)
            && (flags.build == "" ==> cfg.build == file.build)
            && (flags.run != "" ==> cfg.run == flags.run)
            && (flags.run == "" ==> cfg.run == file.run)
            && (flags.watch == "" && file.watch != [] ==> cfg.watch == file.watch)
            && (flags.ignore == "" && file.ignore != [] ==> cfg.ignore == file.ignore)
  {
  }

  /** With every flag set, the file makes no difference. */
  lemma AllFlagsSetIgnoreFile(file1: FileConfig, file2: FileConfig, flags: Flags)
    requires flags.build != "" && flags.run != "" && flags.watch != "" && flags.ignore != ""
    ensures Merge(file1, flags) == Merge(file2, flags)
    ensures Settle(file1, flags) == Settle(file2, flags)
  {
  }

  /** With no flag set, a file that names its lists is taken as it is. */
  lemma NoFlagsKeepFile(file: FileConfig)
    requires file.watch != [] && file.ignore != []
    ensures Merge(file, Flags("", "", "", "")) == file
  {
  }

  /**
   * A set list flag is split on commas: the pieces hold no comma and,
   * joined again with commas, give back the flag.
   */
  lemma ListFlagsSplit(file: FileConfig, flags: Flags)
    ensures var cfg := Merge(file, flags);
            (flags.watch != "" ==> Join(cfg.watch, ',') == flags.watch && forall k :: 0 <= k < |cfg.watch| ==> ',' !in cfg.watch[k])
            && (flags.ignore != "" ==> Join(cfg.ignore, ',') == flags.ignore && forall k :: 0 <= k < |cfg.ignore| ==> ',' !in cfg.ignore[k])
  {
  }

  /** A comma-joined list of comma-free names passed as `--watch` comes back as that list. */
  lemma WatchFlagRoundTrip(file: FileConfig, flags: Flags, names: seq<string>)
    requires |names| >= 1 && forall k :: 0 <= k < |names| ==> ',' !in names[k]
    requires flags.watch == Join(names, ',') && flags.watch != ""
    ensures Merge(file, flags).watch == names
  {
    SplitJoin(names, ',');
  }

  /** Empty lists after the overrides become the defaults; the merged lists are never empty. */
  lemma DefaultsFillEmptyLists(file: FileConfig, flags: Flags)
    ensures var cfg := Merge(file, flags);
            |cfg.watch| >= 1 && |cfg.ignore| >= 1
            && (flags.watch == "" && file.watch == [] ==> cfg.watch == ["."])
            && (flags.ignore == "" && file.ignore == [] ==> cfg.ignore == [".git", "node_modules"])
  {
  }

  /** A set list flag never falls back to the default, even `--watch ","`. */
  lemma SetListFlagNoDefault(file: FileConfig, flags: Flags)
    requires flags.watch != ""
    ensures Merge(file, flags).watch == Split(flags.watch, ',')
  {
  }

  /** Merging a merged configuration again with the same flags changes nothing. */
  lemma MergeIdempotent(file: FileConfig, flags: Flags)
    ensures Merge(Merge(file, flags), flags) == Merge(file, flags)
  {
  }

  /** The run is fatal exactly when neither the flag nor the file names a run command. */
  lemma RunIsRequired(file: FileConfig, flags: Flags)
    ensures Settle(file, flags).Err? <==> file.run == "" && flags.run == ""
    ensures Settle(file, flags).Err? ==> Settle(file, flags).error == RunRequired
    ensures Settle(file, flags).Ok? ==> Settle(file, flags).value.cfg.run != ""
  {
  }

  /**
   * The ignore map holds exactly the trimmed entries, each mapped to true,
   * so a lookup succeeds exactly for a trimmed entry; its keys carry no
   * surrounding white space.
   */
  lemma IgnoreMapExact(dirs: seq<string>, name: string)
    ensures Lookup(IgnoreMapOf(dirs), name) <==> exists d :: d in dirs && TrimSpace(d) == name
    ensures name in IgnoreMapOf(dirs) ==> TrimSpace(name) == name
  {
    if name in IgnoreMapOf(dirs) {
      var d :| d in dirs && TrimSpace(d) == name;
      TrimSpaceIdempotent(d);
    }
  }

  /** An entry written with padding, such as " vendor ", still ignores `vendor`. */
  lemma PaddedEntryIgnored(dirs: seq<string>, pad1: string, name: string, pad2: string)
    requires forall k :: 0 <= k < |pad1| ==> IsSpace(pad1[k])
    requires forall k :: 0 <= k < |pad2| ==> IsSpace(pad2[k])
    requires name != [] && !IsSpace(name[0]) && !IsSpace(name[|name| - 1])
    requires pad1 + name + pad2 in dirs
    ensures Lookup(IgnoreMapOf(dirs), name)
  {
    PaddedTrim(pad1, name, pad2);
    assert TrimSpace(pad1 + name + pad2) in IgnoreKeys(dirs);
  }

  /** Without an ignore setting, the map ignores exactly `.git` and `node_modules`. */
  lemma DefaultIgnoreMap(file: FileConfig, flags: Flags)
    requires flags.ignore == "" && file.ignore == [] && Settle(file, flags).Ok?
    ensures Settle(file, flags).value.ignoreMap == map[".git" := true, "node_modules" := true]
  {
    TrimSpaceUnchanged(".git");
    TrimSpaceUnchanged("node_modules");
    assert IgnoreKeys(DefaultIgnore) == {".git", "node_modules"};
  }
}
