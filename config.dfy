/** The service configuration read from the environment (pkg/config/config.go). The
    environment is a map from variable name to value; a variable that is not in the map is
    unset, which `os.Getenv` reports as the empty string. */
module Config {
  import opened Strings

  type Env = map<string, string>

  datatype Config = Config(mongoURI: string, apiKeys: seq<string>, port: string, dbName: string)

  const DefaultMongoURI: string := "mongodb://localhost:27017"
  const DefaultPort: string := "8080"
  const DefaultDBName: string := "services_db"

  /** os.Getenv: the value, or "" when the variable is unset. */
  function Getenv(env: Env, key: string): string {
    if key in env then env[key] else ""
  }

  /** getEnv: a set, non-empty value wins; an unset or empty one gives the default. */
  function GetEnv(env: Env, key: string, default: string): (r: string)
    ensures key in env && env[key] != "" ==> r == env[key]
    ensures (key !in env || env[key] == "") ==> r == default
  {
    var value := Getenv(env, key);
    if value != "" then value else default
  }

  /** The API key list a value of API_KEYS denotes: none for the empty value, otherwise the
      comma-separated pieces, each with its surrounding white space removed. */
  function KeyList(value: string): (keys: seq<string>)
  {
    if value == "" then [] else
      var pieces := Split(value, ',');
      seq(|pieces|, i requires 0 <= i < |pieces| => TrimSpace(pieces[i]))
  }

  /** Load: the three settings from their variables or defaults, and the API key list split
      on ',' and trimmed in place, piece by piece. */
  method Load(env: Env) returns (cfg: Config)
    ensures cfg.mongoURI == GetEnv(env, "MONGODB_URI", DefaultMongoURI)
    ensures cfg.port == GetEnv(env, "PORT", DefaultPort)
    ensures cfg.dbName == GetEnv(env, "DB_NAME", DefaultDBName)
    ensures cfg.apiKeys == KeyList(Getenv(env, "API_KEYS"))
  {
    cfg := Config(GetEnv(env, "MONGODB_URI", DefaultMongoURI), [], GetEnv(env, "PORT", DefaultPort),
                  GetEnv(env, "DB_NAME", DefaultDBName));
    var apiKeysStr := GetEnv(env, "API_KEYS", "");
    if apiKeysStr != "" {
      var keys := TrimEach(Split(apiKeysStr, ','));
      cfg := cfg.(apiKeys := keys);
    }
  }

  /** The loop of Load that trims each piece in place. */
  method TrimEach(pieces: seq<string>) returns (keys: seq<string>)
    ensures |keys| == |pieces|
    ensures forall j :: 0 <= j < |pieces| ==> keys[j] == TrimSpace(pieces[j])
  {
    keys := pieces;
    var i := 0;
    while i < |keys|
      invariant 0 <= i <= |keys| == |pieces|
      invariant forall j :: 0 <= j < i ==> keys[j] == TrimSpace(pieces[j])
      invariant forall j :: i <= j < |keys| ==> keys[j] == pieces[j]
    {
      keys := keys[i := TrimSpace(keys[i])];
      i := i + 1;
    }
  }

  /** No white space at either end. */
  predicate Trimmed(s: string) {
    s == [] || (!IsSpace(s[0]) && !IsSpace(s[|s| - 1]))
  }

  /** Splitting keeps every comma-separated piece, in order: there is one key more than there
      are commas, and each key is the corresponding piece trimmed, so it has no white space
      at either end and no comma. */
  lemma KeyListPieces(value: string)
    requires value != ""
    ensures |KeyList(value)| == Count(value, ',') + 1
    ensures Join(Split(value, ','), ',') == value
    ensures forall i :: 0 <= i < |KeyList(value)| ==> KeyList(value)[i] == TrimSpace(Split(value, ',')[i])
    ensures forall i :: 0 <= i < |KeyList(value)| ==> ',' !in KeyList(value)[i] && Trimmed(KeyList(value)[i])
  {
    SplitPieces(value, ',');
    JoinSplit(value, ',');
    var pieces := Split(value, ',');
    forall i | 0 <= i < |pieces|
      ensures ',' !in TrimSpace(pieces[i]) && Trimmed(TrimSpace(pieces[i]))
    {
      TrimSpaceSpec(pieces[i]);
      TrimSpaceSubset(pieces[i]);
    }
  }

  /** An unset or empty API_KEYS gives no keys. */
  lemma KeyListEmpty(env: Env)
    requires "API_KEYS" !in env || env["API_KEYS"] == ""
    ensures KeyList(Getenv(env, "API_KEYS")) == []
  {
  }

  /** HasAPIKeys: whether any key is configured. */
  function HasAPIKeys(c: Config): (b: bool)
    ensures b <==> c.apiKeys != []
  {
    |c.apiKeys| > 0
  }

  /** IsValidAPIKey: a linear scan for an exactly equal configured key. */
  method IsValidAPIKey(c: Config, key: string) returns (b: bool)
    ensures b <==> key in c.apiKeys
  {
    for i := 0 to |c.apiKeys|
      invariant key !in c.apiKeys[..i]
    {
      if c.apiKeys[i] == key {
        return true;
      }
    }
    assert c.apiKeys[..|c.apiKeys|] == c.apiKeys;
    return false;
  }
}
