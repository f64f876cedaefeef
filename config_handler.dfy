/**
 * config_handler: the JSON config file as a map scope -> key -> value, its
 * loading (a missing or undecodable file reads as {}), the scope rule,
 * get_or_ask, and the in-memory `project_reuse_flags`. A Session holds the
 * two pieces of state these functions share across calls.
 */
module ConfigHandler {
  import opened Wrappers

  /** A stored value: a string (get_or_ask) or a list of strings (a saved selection). */
  datatype Value = Str(s: string) | List(items: seq<string>)

  type Scope = map<string, Value>
  type Config = map<string, Scope>

  /** The config file: absent, not valid JSON, or a JSON object of scopes. */
  datatype ConfigFile = Missing | Corrupt | Json(config: Config)

  /** load_config. */
  function Load(file: ConfigFile): Config
  {
    match file
    case Json(config) => config
    case _ => map[]
  }

  /** `project_key if project_key else "global"`: None and "" both mean the global scope. */
  function ScopeKey(projectKey: Option<string>): (r: string)
    ensures r == "global" <==> projectKey == None || projectKey == Some("") || projectKey == Some("global")
  {
    match projectKey
    case None => "global"
    case Some(k) => if k == "" then "global" else k
  }

  /** `config.get(scope_key, {})` */
  function ScopeOf(config: Config, scopeKey: string): Scope
  {
    if scopeKey in config then config[scopeKey] else map[]
  }

  /** `scope[key] = v; config[scope_key] = scope` */
  function Store(config: Config, scopeKey: string, key: string, v: Value): Config
  {
    config[scopeKey := ScopeOf(config, scopeKey)[key := v]]
  }

  /** What get_or_ask returns and the config it saves, if any. */
  datatype Answer = Answer(value: Value, saved: Option<Config>)

  /** get_or_ask on a loaded config. */
  function GetOrAskOn(config: Config, key: string, fallback: string, projectKey: Option<string>, sensitive: bool): Answer
  {
    var scopeKey := ScopeKey(projectKey);
    var scope := ScopeOf(config, scopeKey);
    if !sensitive && key in scope then Answer(scope[key], None)
    else if fallback != "" then
      if !sensitive then Answer(Str(fallback), Some(Store(config, scopeKey, key, Str(fallback))))
      else Answer(Str(fallback), None)
    else Answer(Str(""), None)
  }

  /** The file as the program sees it, and the module-level `project_reuse_flags`. */
  class Session {
    var file: ConfigFile
    var reuseFlags: map<string, bool>

    constructor (file: ConfigFile)
      ensures this.file == file && reuseFlags == map[]
    {
      this.file := file;
      reuseFlags := map[];
    }

    /** save_config */
    method Save(config: Config)
      modifies this
      ensures file == Json(config) && reuseFlags == old(reuseFlags)
    {
      file := Json(config);
    }

    /** get_or_ask. */
    method GetOrAsk(key: string, fallback: string, projectKey: Option<string>, sensitive: bool) returns (value: Value)
      modifies this
      ensures value == GetOrAskOn(Load(old(file)), key, fallback, projectKey, sensitive).value
      ensures file == match GetOrAskOn(Load(old(file)), key, fallback, projectKey, sensitive).saved
                      case None => old(file)
                      case Some(config) => Json(config)
      ensures reuseFlags == old(reuseFlags)
    {
      var config := Load(file);
      var scopeKey := ScopeKey(projectKey);
      var scope := ScopeOf(config, scopeKey);
      if !sensitive && key in scope {
        return scope[key];
      }
      if fallback != "" {
        if !sensitive {
          scope := scope[key := Str(fallback)];
          config := config[scopeKey := scope];
          Save(config);
        }
        return Str(fallback);
      }
      return Str("");
    }
  }

  /**
   * Store changes exactly one entry: the scope is created if needed, the key
   * gets the value, and every other key of that scope and every other scope
   * keep what they had.
   */
  lemma StoreSpec(config: Config, scopeKey: string, key: string, v: Value)
    ensures var c := Store(config, scopeKey, key, v);
      && scopeKey in c && key in c[scopeKey] && c[scopeKey][key] == v
      && (forall s :: s != scopeKey ==> (s in c <==> s in config) && (s in c ==> c[s] == config[s]))
      && (forall k :: k != key ==>
            && (k in c[scopeKey] <==> k in ScopeOf(config, scopeKey))
            && (k in c[scopeKey] ==> c[scopeKey][k] == ScopeOf(config, scopeKey)[k]))
  {
  }

  /**
   * The four outcomes of get_or_ask: a stored value is returned for a
   * non-sensitive key and nothing is written; a sensitive call never reads
   * the stored value and never writes; an absent key with a non-empty
   * fallback stores and returns the fallback; an empty fallback gives "".
   */
  lemma GetOrAskSpec(config: Config, key: string, fallback: string, projectKey: Option<string>, sensitive: bool)
    ensures var a := GetOrAskOn(config, key, fallback, projectKey, sensitive);
      var scope := ScopeOf(config, ScopeKey(projectKey));
      && (!sensitive && key in scope ==> a == Answer(scope[key], None))
      && (sensitive ==> a.saved == None && a.value == Str(fallback))
      && (!sensitive && key !in scope && fallback != "" ==>
            a == Answer(Str(fallback), Some(Store(config, ScopeKey(projectKey), key, Str(fallback)))))
      && ((sensitive || key !in scope) && fallback == "" ==> a == Answer(Str(""), None))
  {
  }

  /** After get_or_ask stored a fallback, the next non-sensitive call for the key returns it and writes nothing. */
  lemma GetOrAskThenStored(config: Config, key: string, fallback: string, other: string, projectKey: Option<string>)
    requires key !in ScopeOf(config, ScopeKey(projectKey)) && fallback != ""
    ensures var a := GetOrAskOn(config, key, fallback, projectKey, false);
      a.saved.Some? && GetOrAskOn(a.saved.value, key, other, projectKey, false) == Answer(Str(fallback), None)
  {
  }

  /** A missing or undecodable file loads as the empty config. */
  lemma LoadSpec(file: ConfigFile)
    ensures Load(file) == map[] <==> file.Missing? || file.Corrupt? || file == Json(map[])
  {
  }
}
