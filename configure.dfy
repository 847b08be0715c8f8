/** Configuration helpers: the XDG directory defaults, the key check on a
    loaded configuration, the local-then-global choice of the configuration
    file and the cache path with its overwrite prompt. The environment, the
    home directory, the files and the answer typed at the prompt are inputs. */
module Configure {
  import opened Common
  import opened Documents

  datatype XdgVars = XdgVars(config: string, cache: string)

  /** `environ.get(name)` is truthy: the variable is set and not empty. */
  predicate IsSet(env: map<string, string>, name: string)
  {
    name in env && env[name] != ""
  }

  /** `loadXDGVars()`, with `path.expanduser("~")` given as `home`. */
  function LoadXdgVars(env: map<string, string>, home: string): (v: XdgVars)
    ensures IsSet(env, "XDG_CONFIG_HOME") ==> v.config == env["XDG_CONFIG_HOME"]
    ensures !IsSet(env, "XDG_CONFIG_HOME") ==> v.config == home + "/.config"
    ensures IsSet(env, "XDG_CACHE_HOME") ==> v.cache == env["XDG_CACHE_HOME"]
    ensures !IsSet(env, "XDG_CACHE_HOME") ==> v.cache == home + "/.cache"
    ensures v.config != "" && v.cache != ""
  {
    var xdgConfig := if IsSet(env, "XDG_CONFIG_HOME") then env["XDG_CONFIG_HOME"] else home + "/.config";
    var xdgCache := if IsSet(env, "XDG_CACHE_HOME") then env["XDG_CACHE_HOME"] else home + "/.cache";
    XdgVars(xdgConfig, xdgCache)
  }

  /** The environment with `name` removed. */
  function Unset(env: map<string, string>, name: string): map<string, string>
  {
    env - {name}
  }

  /** An empty variable counts as unset, and each directory depends only on
      its own variable. */
  lemma EmptyVariableIsUnset(env: map<string, string>, home: string, name: string, other: string)
    requires name == "XDG_CONFIG_HOME" || name == "XDG_CACHE_HOME"
    ensures LoadXdgVars(env[name := ""], home) == LoadXdgVars(Unset(env, name), home)
    ensures LoadXdgVars(env[name := other], home).config == LoadXdgVars(env, home).config || name == "XDG_CONFIG_HOME"
    ensures LoadXdgVars(env[name := other], home).cache == LoadXdgVars(env, home).cache || name == "XDG_CACHE_HOME"
  {
  }

  /** `checkConfiguration(configuration)`: `configuration.keys()` raises
      AttributeError on `None`. */
  datatype CheckError = NoneHasNoKeys

  function CheckConfiguration(configuration: Doc<string>): (r: Result<bool, CheckError>)
    ensures r.Err? <==> configuration.Null?
    ensures r == Ok(true) <==> configuration.Dict? && "AURUrl" in configuration.entries && "Mirror" in configuration.entries
  {
    match configuration
    case Null => Err(NoneHasNoKeys)
    case Dict(entries) => Ok("AURUrl" in entries && "Mirror" in entries)
  }

  /** Only the two required keys matter: adding or dropping other keys does not
      change the verdict. */
  lemma ExtraKeysIrrelevant(entries: map<string, string>, extra: map<string, string>)
    requires "AURUrl" !in extra && "Mirror" !in extra
    ensures CheckConfiguration(Dict(entries + extra)) == CheckConfiguration(Dict(entries))
    ensures CheckConfiguration(Dict(entries - extra.Keys)) == CheckConfiguration(Dict(entries))
  {
  }

  function LocalConfigPath(env: map<string, string>, home: string): string
  {
    LoadXdgVars(env, home).config + "/augur/configuration.yaml"
  }

  const GlobalConfigPath := "/etc/augur/configuration.yaml"

  /** A loaded configuration and whether it passed `checkConfiguration`. */
  datatype Loaded = Loaded(configuration: map<string, string>, valid: bool)

  /** The ways `loadConfiguration` ends without a configuration: the two
      `exit(1)` paths and the AttributeError of checking `None`. */
  datatype ConfigError = NoGlobalConfiguration | GlobalConfigurationUnreadable | ConfigurationIsNone

  /** `loadConfiguration()`: a local configuration that loads to a truthy
      document wins; otherwise the global one is loaded, and its absence or
      unreadability ends the program. A document failing the key check is
      returned all the same. */
  method LoadConfiguration(env: map<string, string>, home: string, files: map<string, File<string>>)
    returns (r: Result<Loaded, ConfigError>)
    ensures var local := FileAt(files, LocalConfigPath(env, home));
      local.Readable? && Truthy(local.doc) ==>
        r == Ok(Loaded(local.doc.entries, "AURUrl" in local.doc.entries && "Mirror" in local.doc.entries))
    ensures var local := FileAt(files, LocalConfigPath(env, home));
      !(local.Readable? && Truthy(local.doc)) ==>
        match FileAt(files, GlobalConfigPath)
        case Absent => r == Err(NoGlobalConfiguration)
        case Unreadable => r == Err(GlobalConfigurationUnreadable)
        case Readable(Null) => r == Err(ConfigurationIsNone)
        case Readable(Dict(entries)) => r == Ok(Loaded(entries, "AURUrl" in entries && "Mirror" in entries))
  {
    var xdgConfig := LoadXdgVars(env, home).config;
    var configFile: Doc<string> := Null;
    var local := FileAt(files, xdgConfig + "/augur/configuration.yaml");
    if !local.Absent? {
      if local.Readable? {
        configFile := local.doc;
      }
    }
    if !Truthy(configFile) {
      var global := FileAt(files, GlobalConfigPath);
      if !global.Absent? {
        if global.Unreadable? {
          return Err(GlobalConfigurationUnreadable);
        }
        configFile := global.doc;
      } else {
        return Err(NoGlobalConfiguration);
      }
    }
    var checked := CheckConfiguration(configFile);
    if checked.Err? {
      return Err(ConfigurationIsNone);
    }
    r := Ok(Loaded(configFile.entries, checked.value));
  }

  /** What `checkCache` does when it returns: the cache file path, whether it
      creates the cache directory, and whether it asked before overwriting. */
  datatype CachePlan = CachePlan(path: string, createDir: bool, prompted: bool)

  /** The user did not answer "y" or "Y": `exit(1)`. */
  datatype CacheError = OverwriteDeclined

  /** `checkCache(updating)`; `dirExists` and `fileExists` are the states of
      the cache directory and file, `answer` what `input()` would return. */
  function CheckCache(env: map<string, string>, home: string, updating: bool, dirExists: bool, fileExists: bool,
                      answer: string): (r: Result<CachePlan, CacheError>)
    ensures r.Err? <==> updating && fileExists && answer != "y" && answer != "Y"
    ensures r.Ok? ==> r.value.path == LoadXdgVars(env, home).cache + "/augur/packages.yaml"
    ensures r.Ok? ==> (r.value.prompted <==> updating && fileExists)
    ensures r.Ok? ==> (r.value.createDir <==> !dirExists)
  {
    var xdgCache := LoadXdgVars(env, home).cache;
    var prompted := fileExists && updating;
    if prompted && answer != "y" && answer != "Y" then Err(OverwriteDeclined)
    else Ok(CachePlan(xdgCache + "/augur/packages.yaml", !dirExists, prompted))
  }

  /** The returned path does not depend on `updating`, and the answer matters
      only when the user is asked. */
  lemma CachePathIgnoresUpdating(env: map<string, string>, home: string, dirExists: bool, fileExists: bool,
                                 answer: string, other: string)
    ensures CheckCache(env, home, false, dirExists, fileExists, answer).Ok?
    ensures CheckCache(env, home, true, dirExists, fileExists, "y").value.path
            == CheckCache(env, home, false, dirExists, fileExists, answer).value.path
    ensures !fileExists ==> CheckCache(env, home, true, dirExists, fileExists, answer)
                            == CheckCache(env, home, true, dirExists, fileExists, other)
  {
  }
}
