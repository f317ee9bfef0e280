/** The configuration store of src/utils/config.ts: one JSON file holding
    `{ auth?: { endpoint?, access_token? } }`, validated on every load and save. */
module ConfigStore {
  import opened Wrappers

  /** A JSON document as it reads back from the configuration file. */
  datatype Json =
    | JNull
    | JBool(b: bool)
    | JNumber(n: int)
    | JString(s: string)
    | JArray(items: seq<Json>)
    | JObject(fields: map<string, Json>)

  /** The `auth` part of the schema; `None` is an absent (undefined) key. */
  datatype Auth = Auth(endpoint: Option<string>, accessToken: Option<string>)

  /** The shape the schema declares: only `auth` survives parsing. */
  datatype Config = Config(auth: Option<Auth>)

  /** The configuration file: readable with some content, or `fs.access` failed with an error code. */
  datatype FileState = Present(doc: Document) | AccessFailed(code: Option<string>)

  /** The text of the file: valid JSON, or text that `JSON.parse` rejects. */
  datatype Document = Parsed(json: Json) | Unparsable

  const ProductionEndpoint: string := "https://oneauth.choiceform.io"
  const DevelopmentEndpoint: string := "http://localhost:5001"
  const NotFound: string := "ENOENT"
  const SchemaError: string := "ZodError: invalid configuration"
  const JsonSyntaxError: string := "SyntaxError: invalid JSON"

  /** The file state of a configuration directory that holds no file. */
  const Missing: FileState := AccessFailed(Some(NotFound))

  /** Stands for the URL check of the schema: a scheme (a letter, then letters,
      digits, `+`, `-` or `.`) followed by `:`. */
  predicate IsUrl(s: string) {
    |s| >= 2 && IsAsciiLetter(s[0]) && SchemeThenColon(s, 1)
  }

  predicate IsAsciiLetter(c: char) {
    'a' <= c <= 'z' || 'A' <= c <= 'Z'
  }

  predicate SchemeThenColon(s: string, i: nat)
    decreases |s| - i
  {
    i < |s| && (s[i] == ':' || ((IsAsciiLetter(s[i]) || '0' <= s[i] <= '9' || s[i] in "+-.") && SchemeThenColon(s, i + 1)))
  }

  /** `config.auth?.endpoint`. */
  function Endpoint(c: Config): Option<string> {
    if c.auth.Some? then c.auth.value.endpoint else None
  }

  /** `config.auth?.access_token`. */
  function AccessToken(c: Config): Option<string> {
    if c.auth.Some? then c.auth.value.accessToken else None
  }

  /** What the schema demands of a typed configuration: an endpoint, when present, is a URL. */
  predicate Valid(c: Config) {
    Endpoint(c).Some? ==> IsUrl(Endpoint(c).value)
  }

  /** `JSON.stringify` of a configuration: absent keys are left out. */
  function ToJson(c: Config): Json {
    JObject(if c.auth.Some? then map["auth" := AuthToJson(c.auth.value)] else map[])
  }

  function AuthToJson(a: Auth): Json {
    JObject(StringEntry("endpoint", a.endpoint) + StringEntry("access_token", a.accessToken))
  }

  function StringEntry(key: string, v: Option<string>): map<string, Json> {
    if v.Some? then map[key := JString(v.value)] else map[]
  }

  /** `ConfigSchema.parse`: the document must be an object; `auth`, when present, an object
      whose `endpoint` is a URL string and whose `access_token` is a string; unknown keys
      at either level are dropped. */
  function ParseConfig(j: Json): (r: Result<Config>)
    ensures r.Ok? ==> Valid(r.value)
    ensures r.Ok? ==> j.JObject? && ("auth" in j.fields <==> r.value.auth.Some?)
    ensures !j.JObject? ==> r == Err(SchemaError)
  {
    match j
    case JObject(fields) =>
      if "auth" !in fields then Ok(Config(None))
      else
        var a :- ParseAuth(fields["auth"]);
        Ok(Config(Some(a)))
    case _ => Err(SchemaError)
  }

  function ParseAuth(j: Json): (r: Result<Auth>)
    ensures r.Ok? ==> (r.value.endpoint.Some? ==> IsUrl(r.value.endpoint.value))
  {
    match j
    case JObject(f) =>
      if "endpoint" in f && !(f["endpoint"].JString? && IsUrl(f["endpoint"].s)) then Err(SchemaError)
      else if "access_token" in f && !f["access_token"].JString? then Err(SchemaError)
      else Ok(Auth(StringField(f, "endpoint"), StringField(f, "access_token")))
    case _ => Err(SchemaError)
  }

  function StringField(f: map<string, Json>, key: string): Option<string> {
    if key in f && f[key].JString? then Some(f[key].s) else None
  }

  /** The schema accepts exactly the valid configurations, and gives them back unchanged. */
  lemma SchemaRoundTrip(c: Config)
    ensures ParseConfig(ToJson(c)) == if Valid(c) then Ok(c) else Err(SchemaError)
  {
    if c.auth.Some? {
      var a := c.auth.value;
      var f := StringEntry("endpoint", a.endpoint) + StringEntry("access_token", a.accessToken);
      assert "endpoint" in f <==> a.endpoint.Some?;
      assert a.endpoint.Some? ==> f["endpoint"] == JString(a.endpoint.value);
      assert "access_token" in f <==> a.accessToken.Some?;
      assert a.accessToken.Some? ==> f["access_token"] == JString(a.accessToken.value);
    }
  }

  /** A top-level key other than `auth` (such as `hub`) never reaches the parsed configuration. */
  lemma UnknownKeysStripped(f: map<string, Json>, key: string, v: Json)
    requires key != "auth"
    ensures ParseConfig(JObject(f[key := v])) == ParseConfig(JObject(f))
  {
    assert "auth" in f[key := v] <==> "auth" in f;
    assert "auth" in f ==> f[key := v]["auth"] == f["auth"];
  }

  /** The empty document `{}` is the empty configuration. */
  lemma EmptyConfigRoundTrip()
    ensures ToJson(Config(None)) == JObject(map[])
    ensures ParseConfig(JObject(map[])) == Ok(Config(None))
  {
  }

  /** The configuration written when no file exists: the endpoint depends on `NODE_ENV`. */
  function DefaultConfig(nodeEnv: Option<string>): (c: Config)
    ensures Endpoint(c) == Some(if nodeEnv == Some("production") then ProductionEndpoint else DevelopmentEndpoint)
    ensures AccessToken(c) == None
    ensures Valid(c)
  {
    DefaultEndpointsAreUrls();
    Config(Some(Auth(Some(if nodeEnv == Some("production") then ProductionEndpoint else DevelopmentEndpoint), None)))
  }

  lemma DefaultEndpointsAreUrls()
    ensures IsUrl(ProductionEndpoint) && IsUrl(DevelopmentEndpoint)
  {
    assert SchemeThenColon(ProductionEndpoint, 5);
    assert SchemeThenColon(ProductionEndpoint, 4);
    assert SchemeThenColon(DevelopmentEndpoint, 4);
  }

  /** The invalid endpoint of the store's tests is rejected. */
  lemma NotAUrlRejected()
    ensures !IsUrl("not-a-url")
  {
    var s := "not-a-url";
    assert !SchemeThenColon(s, 9);
    assert !SchemeThenColon(s, 8);
    assert !SchemeThenColon(s, 7);
    assert !SchemeThenColon(s, 6);
    assert !SchemeThenColon(s, 5);
    assert !SchemeThenColon(s, 4);
    assert !SchemeThenColon(s, 3);
    assert !SchemeThenColon(s, 2);
  }

  /** Two-level merge of `toMerged(existing, updates)`: a field the update defines wins,
      a field it leaves undefined keeps its stored value. */
  function Merge(stored: Config, update: Config): (r: Config)
    ensures Endpoint(r) == if Endpoint(update).Some? then Endpoint(update) else Endpoint(stored)
    ensures AccessToken(r) == if AccessToken(update).Some? then AccessToken(update) else AccessToken(stored)
    ensures r.auth.None? <==> stored.auth.None? && update.auth.None?
  {
    match update.auth
    case None => stored
    case Some(u) =>
      var s := stored.auth.GetOr(Auth(None, None));
      Config(Some(Auth(MergeField(s.endpoint, u.endpoint), MergeField(s.accessToken, u.accessToken))))
  }

  function MergeField(stored: Option<string>, update: Option<string>): Option<string> {
    if update.Some? then update else stored
  }

  /** What `load` returns for a file state. */
  function LoadResult(file: FileState, nodeEnv: Option<string>): (r: Result<Config>)
    ensures r.Ok? ==> Valid(r.value)
    ensures file == Missing ==> r == Ok(DefaultConfig(nodeEnv))
    ensures file.AccessFailed? && file.code != Some(NotFound) ==> r.Err?
    ensures file.Present? && file.doc.Parsed? ==> r == ParseConfig(file.doc.json)
    ensures file == Present(Unparsable) ==> r == Err(JsonSyntaxError)
  {
    match file
    case AccessFailed(code) =>
      if code == Some(NotFound) then Ok(DefaultConfig(nodeEnv))
      else Err(if code.Some? then code.value else "Unknown error")
    case Present(Unparsable) => Err(JsonSyntaxError)
    case Present(Parsed(j)) => ParseConfig(j)
  }

  /** The file state `load` leaves behind: it persists the default when there was no file. */
  function AfterLoad(file: FileState, nodeEnv: Option<string>): FileState {
    if file == Missing then Present(Parsed(ToJson(DefaultConfig(nodeEnv)))) else file
  }

  /** A configuration that `save` accepted is what `load` returns afterwards. */
  lemma SaveThenLoad(c: Config, nodeEnv: Option<string>)
    requires Valid(c)
    ensures LoadResult(Present(Parsed(ToJson(c))), nodeEnv) == Ok(c)
  {
    SchemaRoundTrip(c);
  }

  /** A stored file whose endpoint is not a URL makes `load` fail, whatever the token. */
  lemma InvalidEndpointFailsLoad(token: string, nodeEnv: Option<string>)
    ensures var auth := JObject(map["endpoint" := JString("not-a-url"), "access_token" := JString(token)]);
      LoadResult(Present(Parsed(JObject(map["auth" := auth]))), nodeEnv) == Err(SchemaError)
  {
    NotAUrlRejected();
  }

  /** Loading twice gives the same configuration: the default persisted by the first load
      reads back unchanged. */
  lemma LoadIsIdempotent(file: FileState, nodeEnv: Option<string>)
    ensures LoadResult(AfterLoad(file, nodeEnv), nodeEnv) == LoadResult(file, nodeEnv)
  {
    if file == Missing {
      SchemaRoundTrip(DefaultConfig(nodeEnv));
    }
  }

  /** The configuration file and the operations on it. */
  class Store {
    var file: FileState
    const nodeEnv: Option<string>

    constructor (file: FileState, nodeEnv: Option<string>)
      ensures this.file == file && this.nodeEnv == nodeEnv
    {
      this.file := file;
      this.nodeEnv := nodeEnv;
    }

    /** `save`: validate first; only a configuration the schema accepts is written. */
    method Save(c: Config) returns (r: Result<()>)
      modifies this
      ensures r.Ok? <==> Valid(c)
      ensures r.Err? ==> r.message == SchemaError
      ensures file == if Valid(c) then Present(Parsed(ToJson(c))) else old(file)
    {
      SchemaRoundTrip(c);
      var validated := ParseConfig(ToJson(c));
      if validated.Err? {
        return Err(validated.message);
      }
      file := Present(Parsed(ToJson(validated.value)));
      r := Ok(());
    }

    /** `load`: the file's configuration, or a default written out when the file does not exist. */
    method Load() returns (r: Result<Config>)
      modifies this
      ensures r == LoadResult(old(file), nodeEnv)
      ensures file == AfterLoad(old(file), nodeEnv)
    {
      match file
      case AccessFailed(code) =>
        if code == Some(NotFound) {
          var defaultConfig := DefaultConfig(nodeEnv);
          var saved := Save(defaultConfig);
          return Ok(defaultConfig);
        }
        return Err(if code.Some? then code.value else "Unknown error");
      case Present(Unparsable) =>
        return Err(JsonSyntaxError);
      case Present(Parsed(j)) =>
        return ParseConfig(j);
    }

    /** `update`: load (or create) the stored configuration, merge, and save the result. */
    method Update(updates: Config) returns (r: Result<()>)
      modifies this
      ensures LoadResult(old(file), nodeEnv).Err? ==> r.Err? && file == AfterLoad(old(file), nodeEnv)
      ensures LoadResult(old(file), nodeEnv).Ok? ==>
        var merged := Merge(LoadResult(old(file), nodeEnv).value, updates);
        && (r.Ok? <==> Valid(merged))
        && file == if Valid(merged) then Present(Parsed(ToJson(merged))) else AfterLoad(old(file), nodeEnv)
    {
      var existing := Load();
      if existing.Err? {
        return Err(existing.message);
      }
      var merged := Merge(existing.value, updates);
      r := Save(merged);
    }
  }

  /** The store's update scenarios: a stored field the update leaves out survives, and with no
      file the update starts from the default configuration. */
  lemma UpdateKeepsOtherField(stored: Config, token: string, nodeEnv: Option<string>)
    requires Valid(stored)
    ensures var merged := Merge(stored, Config(Some(Auth(None, Some(token)))));
      && Valid(merged)
      && Endpoint(merged) == Endpoint(stored)
      && AccessToken(merged) == Some(token)
      && LoadResult(Present(Parsed(ToJson(merged))), nodeEnv) == Ok(merged)
  {
    var merged := Merge(stored, Config(Some(Auth(None, Some(token)))));
    SchemaRoundTrip(merged);
  }
}
