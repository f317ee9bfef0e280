/** `atomemo plugin refresh-key` of src/commands/plugin/refresh-key.ts: fetch a debug API key
    with the stored access token and record it as `DEBUG_API_KEY` in the `.env` file of the
    working directory. */
module RefreshKey {
  import opened Wrappers
  import Text
  import Http
  import ConfigStore
  import opened Command

  const KeyPrefix: string := "DEBUG_API_KEY="
  const NotAuthenticated: string := "\U{2717} You're not authenticated yet, please run 'atomemo auth login' first."
  const FailurePrefix: string := "\U{2717} Failed to refresh debug API Key: "
  const HubRequired: string := "Hub endpoint is required"
  const MissingApiKey: string := "API response format error: missing api_key field"
  const PermissionDenied: string := "Permission denied: cannot write .env file"
  const UpdateFailed: string := "Failed to update .env file: "
  const AccessDeniedCode: string := "EACCES"
  const KeyPath: string := "/api/v1/debug_api_key"

  // ---------------------------------------------------------------------------
  // Masking

  /** `maskApiKey`: short keys are hidden entirely, longer ones show their first and last four characters. */
  function MaskApiKey(key: string): (r: string)
    ensures |key| <= 8 ==> r == "***"
    ensures |key| > 8 ==> |r| == 11 && r[..4] == key[..4] && r[4..7] == "..." && r[7..] == key[|key| - 4..]
  {
    if |key| <= 8 then "***" else key[..4] + "..." + key[|key| - 4..]
  }

  /** The mask reveals nothing but the two ends: keys that agree on them mask alike. */
  lemma MaskShowsOnlyEnds(a: string, b: string)
    requires |a| > 8 && |b| > 8 && a[..4] == b[..4] && a[|a| - 4..] == b[|b| - 4..]
    ensures MaskApiKey(a) == MaskApiKey(b)
  {
    var ma, mb := MaskApiKey(a), MaskApiKey(b);
    assert ma == ma[..4] + ma[4..7] + ma[7..];
    assert mb == mb[..4] + mb[4..7] + mb[7..];
  }

  // ---------------------------------------------------------------------------
  // Fetching the key

  /** The body of the key endpoint's response once decoded: `api_key` when it is a string. */
  datatype KeyBody = KeyBody(apiKey: Option<string>)

  /** `fetchDebugApiKey` once `assert(config.hub?.endpoint)` and `fetch` are done: `hub` is that
      endpoint and `response` what `fetch` settled with (`Err` when it rejected). */
  function FetchDebugApiKey(hub: Option<string>, response: Result<Http.Response<KeyBody>>): (r: Result<string>)
    ensures r.Ok? <==> Truthy(hub) && response.Ok? && Http.IsOk(response.value) && Truthy(response.value.body.apiKey)
    ensures r.Ok? ==> r.value == response.value.body.apiKey.value && r.value != ""
    ensures !Truthy(hub) ==> r == Err(HubRequired)
    ensures Truthy(hub) && response.Err? ==> r == Err(response.message)
    ensures Truthy(hub) && response.Ok? && !Http.IsOk(response.value) ==>
      r == Err(Http.StatusFailure(response.value.status, response.value.statusText))
    ensures Truthy(hub) && response.Ok? && Http.IsOk(response.value) && !Truthy(response.value.body.apiKey) ==>
      r == Err(MissingApiKey)
  {
    if !Truthy(hub) then Err(HubRequired)
    else
      var resp :- response;
      if !Http.IsOk(resp) then Err(Http.StatusFailure(resp.status, resp.statusText))
      else if !Truthy(resp.body.apiKey) then Err(MissingApiKey)
      else Ok(resp.body.apiKey.value)
  }

  /** `config.hub?.endpoint` of a configuration `load` returns: the schema has no `hub`. */
  const StoredHub: Option<string> := None

  /** `fetchDebugApiKey` as written reads the hub from the loaded configuration: a `hub` key of
      the stored file is dropped by the schema, so the assertion fails whatever the hub answers. */
  lemma StoredHubIsDropped(f: map<string, ConfigStore.Json>, hub: ConfigStore.Json, response: Result<Http.Response<KeyBody>>)
    ensures ConfigStore.ParseConfig(ConfigStore.JObject(f["hub" := hub])) == ConfigStore.ParseConfig(ConfigStore.JObject(f))
    ensures FetchDebugApiKey(StoredHub, response) == Err(HubRequired)
  {
    ConfigStore.UnknownKeysStripped(f, "hub", hub);
  }

  /** The request `fetchDebugApiKey` sends. */
  function KeyRequest(hub: string, accessToken: string): Http.Request {
    Http.Get(hub + KeyPath, accessToken)
  }

  // ---------------------------------------------------------------------------
  // The `.env` rewrite

  /** `^` in multiline mode: the start of the text or a position right after a line terminator. */
  predicate LineStart(s: string, i: nat)
    requires i <= |s|
  {
    i == 0 || Text.IsLineTerminator(s[i - 1])
  }

  /** A line of `s` starts at `i` with `DEBUG_API_KEY=`. */
  predicate KeyLineAt(s: string, i: nat)
    requires i <= |s|
  {
    LineStart(s, i) && Text.StartsWith(s[i..], KeyPrefix)
  }

  /** Where `/^DEBUG_API_KEY=.*$/m` starts to match in `s` at or after `from`: the first key line. */
  function FirstKeyLine(s: string, from: nat): (r: Option<nat>)
    requires from <= |s|
    ensures r.Some? ==> from <= r.value <= |s| && KeyLineAt(s, r.value)
    ensures r.Some? ==> forall j :: from <= j < r.value ==> !KeyLineAt(s, j)
    ensures r.None? ==> forall j :: from <= j <= |s| ==> !KeyLineAt(s, j)
    decreases |s| - from
  {
    if KeyLineAt(s, from) then Some(from)
    else if from == |s| then None
    else FirstKeyLine(s, from + 1)
  }

  /** Where the greedy `.*` stops: the first line terminator at or after `i`, or the end. */
  function LineEnd(s: string, i: nat): (e: nat)
    requires i <= |s|
    ensures i <= e <= |s| && Text.SingleLine(s[i..e])
    ensures e == |s| || Text.IsLineTerminator(s[e])
    decreases |s| - i
  {
    if i == |s| || Text.IsLineTerminator(s[i]) then i
    else
      var e := LineEnd(s, i + 1);
      assert forall k :: 0 <= k < e - i ==> s[i..e][k] == s[i + k];
      e
  }

  /** `GetSubstitution` (section 22.1.3.19.1 of ECMA-262) for a pattern without capture groups:
      `$$`, `$&`, `` $` `` and `$'` are replaced, every other `$` is kept as it is. */
  function Expand(r: string, matched: string, before: string, after: string): string
    decreases |r|
  {
    if r == [] then []
    else if |r| >= 2 && r[0] == '$' && r[1] == '$' then "$" + Expand(r[2..], matched, before, after)
    else if |r| >= 2 && r[0] == '$' && r[1] == '&' then matched + Expand(r[2..], matched, before, after)
    else if |r| >= 2 && r[0] == '$' && r[1] == '`' then before + Expand(r[2..], matched, before, after)
    else if |r| >= 2 && r[0] == '$' && r[1] == '\'' then after + Expand(r[2..], matched, before, after)
    else [r[0]] + Expand(r[1..], matched, before, after)
  }

  /** A replacement without `$` is inserted literally. */
  lemma {:induction false} ExpandPlain(r: string, matched: string, before: string, after: string)
    requires '$' !in r
    ensures Expand(r, matched, before, after) == r
    decreases |r|
  {
    if r != [] {
      assert r[0] != '$' && '$' !in r[1..];
      ExpandPlain(r[1..], matched, before, after);
    }
  }

  /** `content.replace(/^DEBUG_API_KEY=.*$/m, "DEBUG_API_KEY=" + key)`: the first key line, up to
      its line terminator, is replaced; without one the content stays as it is. */
  function ReplaceKeyLine(content: string, key: string): string {
    match FirstKeyLine(content, 0)
    case None => content
    case Some(i) =>
      var e := LineEnd(content, i);
      content[..i] + Expand(KeyPrefix + key, content[i..e], content[..i], content[e..]) + content[e..]
  }

  /** What is put between old content and the appended line. */
  function Separator(content: string): string {
    if content != [] && !Text.EndsWith(content, "\n") then "\n" else ""
  }

  /** The text `updateEnvFile` writes for the old text `content` (`""` when there was no file). */
  function NewEnvContent(content: string, key: string): string {
    if Text.Includes(content, KeyPrefix) then ReplaceKeyLine(content, key)
    else content + Separator(content) + KeyPrefix + key + "\n"
  }

  lemma PrefixIsOneLine()
    ensures Text.SingleLine(KeyPrefix) && '$' !in KeyPrefix && |KeyPrefix| == 14
  {
  }

  lemma {:induction false} FirstKeyLineIs(s: string, from: nat, i: nat)
    requires from <= i <= |s| && KeyLineAt(s, i)
    requires forall j :: from <= j < i ==> !KeyLineAt(s, j)
    ensures FirstKeyLine(s, from) == Some(i)
    decreases i - from
  {
    if from < i {
      FirstKeyLineIs(s, from + 1, i);
    }
  }

  lemma {:induction false} LineEndIs(s: string, i: nat, e: nat)
    requires i <= e <= |s| && Text.SingleLine(s[i..e])
    requires e == |s| || Text.IsLineTerminator(s[e])
    ensures LineEnd(s, i) == e
    decreases e - i
  {
    if i < e {
      assert s[i..e][0] == s[i];
      assert s[i + 1..e] == s[i..e][1..];
      LineEndIs(s, i + 1, e);
    }
  }

  /** The regular expression's match, stated without search: a key line `line` after a text `pre`
      that has no key line, ending where `post` starts with a line terminator or the text ends. */
  lemma ReplaceMatchesRegex(pre: string, line: string, post: string, key: string)
    requires LineStart(pre + line + post, |pre|)
    requires Text.StartsWith(line, KeyPrefix) && Text.SingleLine(line)
    requires post == [] || Text.IsLineTerminator(post[0])
    requires forall j :: 0 <= j < |pre| ==> !KeyLineAt(pre + line + post, j)
    ensures ReplaceKeyLine(pre + line + post, key) == pre + Expand(KeyPrefix + key, line, pre, post) + post
  {
    var s := pre + line + post;
    var i, f := |pre|, |pre| + |line|;
    assert s[i..][..|KeyPrefix|] == line[..|KeyPrefix|];
    FirstKeyLineIs(s, 0, i);
    assert s[i..f] == line && s[..i] == pre && s[f..] == post;
    if post != [] {
      assert s[f] == post[0];
    }
    LineEndIs(s, i, f);
  }

  /** When a key line exists, the first one is replaced by `DEBUG_API_KEY=<key>` and all other text is kept. */
  lemma ReplacesFirstKeyLine(pre: string, line: string, post: string, key: string)
    requires LineStart(pre + line + post, |pre|)
    requires Text.StartsWith(line, KeyPrefix) && Text.SingleLine(line)
    requires post == [] || Text.IsLineTerminator(post[0])
    requires forall j :: 0 <= j < |pre| ==> !KeyLineAt(pre + line + post, j)
    requires '$' !in key
    ensures NewEnvContent(pre + line + post, key) == pre + (KeyPrefix + key) + post
  {
    var s := pre + line + post;
    assert Text.Includes(s, KeyPrefix) by {
      assert s[|pre|..][..|KeyPrefix|] == line[..|KeyPrefix|];
      assert Text.StartsWith(s[|pre|..], KeyPrefix);
    }
    assert NewEnvContent(s, key) == ReplaceKeyLine(s, key);
    ReplaceMatchesRegex(pre, line, post, key);
    PrefixIsOneLine();
    ExpandPlain(KeyPrefix + key, line, pre, post);
  }

  /** Without any `DEBUG_API_KEY=` the key line is appended: the old text is kept as a prefix and
      the new text ends in a newline, with a newline inserted only where the old text lacked one. */
  lemma AppendsKeyLine(content: string, key: string)
    requires !Text.Includes(content, KeyPrefix)
    ensures var r := NewEnvContent(content, key);
      && Text.StartsWith(r, content)
      && Text.EndsWith(r, KeyPrefix + key + "\n")
      && |r| == |content| + |KeyPrefix + key + "\n"| + (if content != [] && content[|content| - 1] != '\n' then 1 else 0)
      && (content != [] && content[|content| - 1] != '\n' ==> r[|content|] == '\n')
  {
    var sep, line := Separator(content), KeyPrefix + key + "\n";
    var r := (content + sep) + line;
    assert NewEnvContent(content, key) == r;
    assert r[..|content|] == content;
    assert r[|r| - |line|..] == line;
    if content != [] {
      assert Text.EndsWith(content, "\n") <==> content[|content| - 1] == '\n' by {
        assert content[|content| - 1..] == [content[|content| - 1]];
      }
    }
  }

  /** A missing `.env` becomes exactly the key line. */
  lemma MissingFileGetsKeyLine(key: string)
    ensures NewEnvContent("", key) == KeyPrefix + key + "\n"
  {
    assert !Text.StartsWith([], KeyPrefix);
  }

  /** `includes` sees `DEBUG_API_KEY=` inside a line but the anchored expression finds no key
      line: the replace path is taken and the text is written back unchanged. */
  lemma MidLineKeyKeptAsIs(content: string, key: string)
    requires Text.Includes(content, KeyPrefix)
    requires forall j :: 0 <= j <= |content| ==> !KeyLineAt(content, j)
    ensures NewEnvContent(content, key) == content
  {
  }

  /** A one-line text holding `DEBUG_API_KEY=` anywhere but at its start has no key line. */
  lemma OneLineMidKeyKeptAsIs(content: string, key: string)
    requires Text.SingleLine(content) && Text.Includes(content, KeyPrefix)
    requires !Text.StartsWith(content, KeyPrefix)
    ensures NewEnvContent(content, key) == content
  {
    forall j | 0 <= j <= |content| ensures !KeyLineAt(content, j) {
      if j > 0 {
        assert !Text.IsLineTerminator(content[j - 1]);
      }
    }
    MidLineKeyKeptAsIs(content, key);
  }

  /** The edge case on a concrete shape: a line `MY_DEBUG_API_KEY=<value>` is left alone. */
  lemma MidLineExample(value: string, key: string)
    requires Text.SingleLine(value)
    ensures NewEnvContent("MY_" + KeyPrefix + value, key) == "MY_" + KeyPrefix + value
  {
    var s := "MY_" + KeyPrefix + value;
    assert Text.Includes(s, KeyPrefix) by {
      assert s[3..][..14] == KeyPrefix;
      assert Text.StartsWith(s[3..], KeyPrefix);
    }
    assert Text.SingleLine(s) by {
      forall i | 0 <= i < |s| ensures !Text.IsLineTerminator(s[i]) {
        if i >= 17 {
          assert s[i] == value[i - 17];
        } else {
          assert s[i] in "MY_DEBUGAPIKE=";
        }
      }
    }
    assert s[0] != KeyPrefix[0];
    OneLineMidKeyKeptAsIs(s, key);
  }

  /** Texts that agree on their first `n` characters have the same key lines starting early enough. */
  lemma SameKeyLines(a: string, b: string, n: nat)
    requires n <= |a| && n <= |b| && a[..n] == b[..n]
    ensures forall j :: 0 <= j && j + |KeyPrefix| <= n ==> (KeyLineAt(a, j) <==> KeyLineAt(b, j))
  {
    forall j | 0 <= j && j + |KeyPrefix| <= n ensures KeyLineAt(a, j) <==> KeyLineAt(b, j) {
      if j > 0 {
        assert a[j - 1] == a[..n][j - 1] == b[..n][j - 1] == b[j - 1];
      }
      assert a[j..][..|KeyPrefix|] == a[..n][j..j + |KeyPrefix|] == b[..n][j..j + |KeyPrefix|] == b[j..][..|KeyPrefix|];
    }
  }

  /** The appended key line is the first key line of the new text. */
  lemma AppendedLineIsFirst(content: string, key: string)
    requires !Text.Includes(content, KeyPrefix)
    ensures var pre := content + Separator(content);
      forall j :: 0 <= j < |pre| ==> !KeyLineAt(pre + (KeyPrefix + key) + "\n", j)
  {
    var pre := content + Separator(content);
    var s := pre + (KeyPrefix + key) + "\n";
    PrefixIsOneLine();
    forall j | 0 <= j < |pre| ensures !Text.StartsWith(s[j..], KeyPrefix) {
      if j + |KeyPrefix| <= |content| {
        assert s[j..][..|KeyPrefix|] == content[j..][..|KeyPrefix|];
        assert !Text.StartsWith(content[j..], KeyPrefix);
      } else if |s| - j >= |KeyPrefix| {
        var q := if Separator(content) == "\n" then |content| else |content| - 1;
        if Separator(content) == "" {
          assert content[|content| - 1..] == "\n";
        }
        assert s[q] == '\n';
        assert s[j..][..|KeyPrefix|][q - j] == s[q];
        assert !Text.IsLineTerminator(KeyPrefix[q - j]);
      }
    }
  }

  lemma KeyLineIsOneLine(k: string)
    requires Text.SingleLine(k)
    ensures Text.SingleLine(KeyPrefix + k) && Text.StartsWith(KeyPrefix + k, KeyPrefix)
  {
    PrefixIsOneLine();
    forall j | 0 <= j < |KeyPrefix + k| ensures !Text.IsLineTerminator((KeyPrefix + k)[j]) {
      if j >= |KeyPrefix| {
        assert (KeyPrefix + k)[j] == k[j - |KeyPrefix|];
      }
    }
    assert (KeyPrefix + k)[..|KeyPrefix|] == KeyPrefix;
  }

  lemma AppendValue(content: string, key: string)
    requires !Text.Includes(content, KeyPrefix)
    ensures NewEnvContent(content, key) == (content + Separator(content)) + (KeyPrefix + key) + "\n"
  {
    var pre := content + Separator(content);
    assert NewEnvContent(content, key) == pre + KeyPrefix + key + "\n";
    assert pre + KeyPrefix + key == pre + (KeyPrefix + key);
  }

  /** The second refresh replaces the line the first one appended. */
  lemma RefreshAfterAppend(content: string, k1: string, k2: string)
    requires !Text.Includes(content, KeyPrefix)
    requires Text.SingleLine(k1) && '$' !in k2
    ensures NewEnvContent(NewEnvContent(content, k1), k2) == NewEnvContent(content, k2)
  {
    var pre := content + Separator(content);
    var line := KeyPrefix + k1;
    KeyLineIsOneLine(k1);
    AppendedLineIsFirst(content, k1);
    AppendValue(content, k1);
    AppendValue(content, k2);
    if |pre| > 0 && Separator(content) == "" {
      assert content[|content| - 1..] == "\n";
      assert (pre + line + "\n")[|pre| - 1] == content[|content| - 1];
    }
    ReplacesFirstKeyLine(pre, line, "\n", k2);
  }

  /** On the replace path without `$` in the key, the first key line becomes `DEBUG_API_KEY=<key>`. */
  lemma ReplaceValue(content: string, key: string)
    requires FirstKeyLine(content, 0).Some? && '$' !in key
    ensures var i := FirstKeyLine(content, 0).value;
      NewEnvContent(content, key) == content[..i] + (KeyPrefix + key) + content[LineEnd(content, i)..]
  {
    PrefixIsOneLine();
    var i := FirstKeyLine(content, 0).value;
    var e := LineEnd(content, i);
    assert content[i..][..|KeyPrefix|] == KeyPrefix;
    assert Text.Includes(content, KeyPrefix);
    ExpandPlain(KeyPrefix + key, content[i..e], content[..i], content[e..]);
  }

  /** The rewritten key line is still the first key line of the text. */
  lemma RewrittenLineIsFirst(content: string, k1: string)
    requires FirstKeyLine(content, 0).Some?
    ensures var i := FirstKeyLine(content, 0).value;
      var r1 := content[..i] + (KeyPrefix + k1) + content[LineEnd(content, i)..];
      && LineStart(r1, i)
      && forall j :: 0 <= j < i ==> !KeyLineAt(r1, j)
  {
    PrefixIsOneLine();
    var i := FirstKeyLine(content, 0).value;
    var e := LineEnd(content, i);
    var pre, line, post := content[..i], KeyPrefix + k1, content[e..];
    var r1 := pre + line + post;
    assert content[i..][..|KeyPrefix|] == KeyPrefix;
    assert content[..i + |KeyPrefix|] == r1[..i + |KeyPrefix|] by {
      assert content[..i + |KeyPrefix|] == content[..i] + content[i..][..|KeyPrefix|];
      assert r1[..i + |KeyPrefix|] == pre + line[..|KeyPrefix|];
    }
    SameKeyLines(content, r1, i + |KeyPrefix|);
    if i > 0 {
      assert r1[i - 1] == content[i - 1];
    }
  }

  /** The second refresh replaces the line the first one rewrote. */
  lemma RefreshAfterReplace(content: string, i: nat, k1: string, k2: string)
    requires FirstKeyLine(content, 0) == Some(i)
    requires Text.SingleLine(k1) && '$' !in k1 && '$' !in k2
    ensures NewEnvContent(NewEnvContent(content, k1), k2) == NewEnvContent(content, k2)
  {
    var pre, line, post := content[..i], KeyPrefix + k1, content[LineEnd(content, i)..];
    ReplaceValue(content, k1);
    ReplaceValue(content, k2);
    Rereplace(pre, line, post, content, k1, k2);
  }

  lemma Rereplace(pre: string, line: string, post: string, content: string, k1: string, k2: string)
    requires FirstKeyLine(content, 0).Some?
    requires pre == content[..FirstKeyLine(content, 0).value] && line == KeyPrefix + k1
    requires post == content[LineEnd(content, FirstKeyLine(content, 0).value)..]
    requires Text.SingleLine(k1) && '$' !in k2
    ensures NewEnvContent(pre + line + post, k2) == pre + (KeyPrefix + k2) + post
  {
    KeyLineIsOneLine(k1);
    RewrittenLineIsFirst(content, k1);
    ReplacesFirstKeyLine(pre, line, post, k2);
  }

  /** Refreshing twice leaves what refreshing once with the second key leaves. */
  lemma LastRefreshWins(content: string, k1: string, k2: string)
    requires Text.SingleLine(k1) && '$' !in k1 && '$' !in k2
    ensures NewEnvContent(NewEnvContent(content, k1), k2) == NewEnvContent(content, k2)
  {
    if !Text.Includes(content, KeyPrefix) {
      RefreshAfterAppend(content, k1, k2);
    } else if FirstKeyLine(content, 0).Some? {
      RefreshAfterReplace(content, FirstKeyLine(content, 0).value, k1, k2);
    }
  }

  // ---------------------------------------------------------------------------
  // The `.env` file and the command

  /** A filesystem failure: its `code` (`EACCES`, …) and message. */
  datatype FsError = FsError(code: Option<string>, message: string)

  /** The error `updateEnvFile` rethrows for a failed write. */
  function WriteFailure(e: FsError): (m: string)
    ensures e.code == Some(AccessDeniedCode) ==> m == PermissionDenied
    ensures e.code != Some(AccessDeniedCode) ==> m == UpdateFailed + e.message
  {
    if e.code == Some(AccessDeniedCode) then PermissionDenied else UpdateFailed + e.message
  }

  /** The `.env` file of the working directory: `None` when it does not exist or cannot be read. */
  class EnvFile {
    var content: Option<string>

    constructor(content: Option<string>)
      ensures this.content == content
    {
      this.content := content;
    }

    /** `updateEnvFile(apiKey)`; `writeError` is how `writeFile` fails, if it does. */
    method Update(apiKey: string, writeError: Option<FsError>) returns (r: Result<()>)
      modifies this
      ensures writeError.None? ==> r == Ok(()) && content == Some(NewEnvContent(old(content).GetOr(""), apiKey))
      ensures writeError.Some? ==> r == Err(WriteFailure(writeError.value)) && content == old(content)
    {
      var envContent := "";
      var existingKey := false;
      if content.Some? {
        envContent := content.value;
        existingKey := Text.Includes(envContent, KeyPrefix);
      }
      var newContent;
      if existingKey {
        newContent := ReplaceKeyLine(envContent, apiKey);
      } else {
        var separator := if envContent != [] && !Text.EndsWith(envContent, "\n") then "\n" else "";
        newContent := envContent + separator + KeyPrefix + apiKey + "\n";
      }
      if writeError.Some? {
        return Err(WriteFailure(writeError.value));
      }
      content := Some(newContent);
      r := Ok(());
    }
  }

  /** The lines printed after a successful refresh. */
  function SuccessLog(key: string): seq<string> {
    [ "\U{2713} Debug API Key refreshed successfully",
      "\U{2713} DEBUG_API_KEY updated in .env file",
      "",
      "Your debug API Key has been saved to .env file.",
      "Key preview: " + MaskApiKey(key) ]
  }

  /** `run()`: `hub` is `config.hub?.endpoint` of the configuration `fetchDebugApiKey` loads,
      `response` what the key endpoint answers and `writeError` how writing `.env` fails. */
  method Run(store: ConfigStore.Store, env: EnvFile, hub: Option<string>,
             response: Result<Http.Response<KeyBody>>, writeError: Option<FsError>)
    returns (outcome: Outcome, request: Option<Http.Request>)
    modifies store, env
    ensures var first := ConfigStore.LoadResult(old(store.file), store.nodeEnv);
      && (first.Err? ==> outcome == Threw(first.message) && request == None && env.content == old(env.content))
      && (first.Ok? && !Truthy(ConfigStore.AccessToken(first.value)) ==>
            outcome == Exited(1, [NotAuthenticated]) && request == None && env.content == old(env.content))
      && (first.Ok? && Truthy(ConfigStore.AccessToken(first.value)) ==>
            var token := ConfigStore.AccessToken(first.value).value;
            var key := FetchDebugApiKey(hub, response);
            && (request.Some? <==> Truthy(hub))
            && (request.Some? ==> request.value == KeyRequest(hub.value, token))
            && (key.Err? ==> outcome == Exited(1, [FailurePrefix + key.message]) && env.content == old(env.content))
            && (key.Ok? && writeError.Some? ==>
                  outcome == Exited(1, [FailurePrefix + WriteFailure(writeError.value)]) && env.content == old(env.content))
            && (key.Ok? && writeError.None? ==>
                  outcome == Completed(SuccessLog(key.value))
                  && env.content == Some(NewEnvContent(old(env.content).GetOr(""), key.value))))
    ensures store.file == ConfigStore.AfterLoad(old(store.file), store.nodeEnv)
  {
    request := None;
    var loaded := store.Load();
    if loaded.Err? {
      return Threw(loaded.message), None;
    }
    var config := loaded.value;
    var token := ConfigStore.AccessToken(config);
    if !Truthy(token) {
      return Exited(1, [NotAuthenticated]), None;
    }
    ConfigStore.LoadIsIdempotent(old(store.file), store.nodeEnv);
    var again := store.Load();
    assert again == loaded;
    if Truthy(hub) {
      request := Some(KeyRequest(hub.value, token.value));
    }
    var key := FetchDebugApiKey(hub, response);
    if key.Err? {
      return Exited(1, [FailurePrefix + key.message]), request;
    }
    var written := env.Update(key.value, writeError);
    if written.Err? {
      return Exited(1, [FailurePrefix + written.message]), request;
    }
    outcome := Completed(SuccessLog(key.value));
  }
}
