# atomemo plugin CLI — a Dafny model

This project models the core of the `atomemo` command-line tool. Plugin authors use it to
log in to the Choiceform platform, to check their session, to scaffold a new automation
plugin and to fetch a debug API key for it. The model covers:

- **the configuration store** (`ConfigStore`, `config.dfy`). It is one JSON file. Its schema
  keeps `auth.endpoint` (a URL) and `auth.access_token` and drops every other key. When the
  file is missing it is created with a default endpoint chosen by `NODE_ENV`. An update
  merges field by field.
- **`auth login`** (`DeviceLogin`, `login.dfy`). This is the device-authorization flow.
  After the device code is issued, the command polls the token endpoint: first after 5
  seconds, and 5 seconds longer after every `slow_down`. It stops on a token, on
  `access_denied` or `expired_token` (exit code 0), or on any other error (exit code 1).
  A token is merged into the configuration.
- **`auth status`** (`AuthStatus`, `status.dfy`). It reports the session behind the stored
  token, or a hint to log in first.
- **`plugin refresh-key`** (`RefreshKey`, `refresh_key.dfy`). It fetches a debug API key
  from the hub. It then rewrites the first `DEBUG_API_KEY=` line of `.env`, or appends
  one, and prints the key masked.
- **`plugin init`** (`PluginInit`, `init.dfy`). It reconciles `--interactive` with
  `--name`, runs the eight prompts in order, checks the name against its pattern, and
  builds a generator from the flags.
- **the plugin generator** (`Generator`, `generator.dfy`). It groups `scope:entry`
  permissions by scope, sorted by scope. It walks the `common` and language template
  trees, renders `.eta` files without their extension and copies every other file.

Supporting modules: `Wrappers` (Option, Result, JavaScript truthiness), `Text` (string
predicates), `Http` (response status classification) and `Command` (how a command ends:
completed with its log, exited with a code, or threw).

State the source changes in place becomes Dafny objects:

| Object | Fields |
|---|---|
| `ConfigStore.Store` | the configuration file |
| `DeviceLogin.AuthLogin` | polling interval, requests sent, timer delays |
| `RefreshKey.EnvFile` | the `.env` file |
| `PluginInit.CommandFlags` | the mutable flags |
| `PluginInit.Terminal` | the replies not yet read |
| `Generator.FileSystem` | the disk |

Pure logic becomes functions and lemmas: the schema, the status messages, the polling
schedule, the `.env` rewrite, the name pattern and the grouping.

Side effects are parameters of the model:

- HTTP responses are values passed in, and requests are recorded values.
- The clock is a parameter.
- The disk outside the configuration file and `.env` is a `Disk` value.
- The replies the user types are a sequence.

## Model

| member | source | states |
|---|---|---|
| ConfigStore.ParseConfig | src/utils/config.ts:15-22 | A configuration accepted by the schema is valid (its endpoint is a URL). `auth` is present exactly when the object has an `auth` key. Anything other than an object is refused with the schema error. |
| ConfigStore.SchemaRoundTrip | src/utils/config.ts:15-31 | Parsing the JSON that `save` writes gives back the configuration exactly when it is valid, and the schema error otherwise. |
| ConfigStore.UnknownKeysStripped | src/utils/config.ts:15-22 | A top-level key other than `auth` makes no difference to the parsed configuration. |
| ConfigStore.EmptyConfigRoundTrip | src/utils/config.ts:15-22 | The empty configuration serialises to `{}`, and `{}` parses to the empty configuration. |
| ConfigStore.DefaultConfig | src/utils/config.ts:44-51 | The default has the production endpoint exactly when `NODE_ENV` is `production` and the local one otherwise. It has no token and is valid. |
| ConfigStore.DefaultEndpointsAreUrls | src/utils/config.ts:46-49 | Both default endpoints pass the URL check. |
| ConfigStore.NotAUrlRejected | src/utils/config.ts:18 | `not-a-url` is not a valid endpoint. |
| ConfigStore.Merge | src/utils/config.ts:63-67 | Each `auth` field of the merge is the update's value when the update sets it, and the stored value otherwise. `auth` is absent only when it is absent from both. |
| ConfigStore.LoadResult | src/utils/config.ts:34-61 | A loaded configuration is valid. A missing file yields the default configuration. Any other access error is rethrown. A parsed file gives what the schema makes of it, and an unparsable file fails with the JSON syntax error. |
| ConfigStore.InvalidEndpointFailsLoad | test/utils/config.test.ts:192-213 | A stored file whose `auth.endpoint` is `not-a-url` makes `load` fail with the schema error, whatever its token. |
| ConfigStore.SaveThenLoad | src/utils/config.ts:26-61 | Loading a file that `save` wrote for a valid configuration gives that configuration back. |
| ConfigStore.LoadIsIdempotent | src/utils/config.ts:34-61 | A second `load` returns what the first returned. This holds although the first may have created the file. |
| ConfigStore.Store.Save | src/utils/config.ts:26-32 | Saving succeeds exactly for a valid configuration and then writes its JSON. An invalid one fails with the schema error and leaves the file as it was. |
| ConfigStore.Store.Load | src/utils/config.ts:34-61 | Returns the load result for the current file. It writes the default configuration when the file is missing. |
| ConfigStore.Store.Update | src/utils/config.ts:63-67 | A failed load fails the update. Otherwise the merge of the stored configuration and the updates is saved when valid. |
| ConfigStore.UpdateKeepsOtherField | src/utils/config.ts:63-67 | Updating only the token keeps the stored endpoint and stays valid. Loading the result then returns the token. |
| Http.StatusFailure | src/commands/auth/status.ts:92-100 | A 401 status gives the "invalid or expired" message. Any other failing status gives "API request failed: ", then the status code in decimal digits, a space and the status text. |
| AuthStatus.FetchSession | src/commands/auth/status.ts:80-104 | The session is returned exactly when the request succeeded with a 2xx status and a decodable body. A network error passes through. A failing status gives its status message. |
| AuthStatus.Status | src/commands/auth/status.ts:33-78 | A load error throws. No token prints the login hint. A token without an endpoint throws. The session request is sent exactly when both are present. A session prints its fields, and a failure exits with code 1 and the failure message. |
| AuthStatus.RejectedTokenExits | src/commands/auth/status.ts:73-77 | A 401 answer makes the command exit with code 1 and the invalid-token message. |
| AuthStatus.NoTokenNoRequest | src/commands/auth/status.ts:38-46 | Without a token only the hint is printed and no request is made. |
| AuthStatus.Run | src/commands/auth/status.ts:33-78 | The command behaves as `Status` on what `load` returns, and leaves the configuration file as `load` leaves it. |
| RefreshKey.MaskApiKey | src/commands/plugin/refresh-key.ts:130-137 | Keys of up to 8 characters mask to `***`. Longer keys show their first 4 and last 4 characters around `...`, 11 characters in all. |
| RefreshKey.MaskShowsOnlyEnds | src/commands/plugin/refresh-key.ts:130-137 | Two long keys with the same first 4 and last 4 characters mask alike, so the middle is never shown. |
| RefreshKey.FetchDebugApiKey | src/commands/plugin/refresh-key.ts:50-84 | A key is returned exactly when there is a hub endpoint, the answer has a 2xx status and the body carries a non-empty `api_key`. Otherwise: the hub error, the network error, the status message or the missing-field message. |
| RefreshKey.StoredHubIsDropped | src/commands/plugin/refresh-key.ts:52-53 | A `hub` key of the stored file is dropped by the schema, so the hub assertion fails for every response. |
| RefreshKey.ReplacesFirstKeyLine | src/commands/plugin/refresh-key.ts:96-108 | When `.env` has a line starting with `DEBUG_API_KEY=`, the first such line becomes `DEBUG_API_KEY=<key>`. Everything before and after it is kept. |
| RefreshKey.AppendsKeyLine | src/commands/plugin/refresh-key.ts:109-113 | Without any `DEBUG_API_KEY=` in the file, the new content is the old content, then a newline if the old content did not end in one, then the key line and a newline. The character right after the old content is that newline whenever the old content is nonempty and does not end in one. |
| RefreshKey.MissingFileGetsKeyLine | src/commands/plugin/refresh-key.ts:91-113 | A missing `.env` becomes exactly the key line with a newline. |
| RefreshKey.MidLineKeyKeptAsIs | src/commands/plugin/refresh-key.ts:96-108 | When `DEBUG_API_KEY=` occurs only inside lines and never at a line start, the file is written back unchanged. The key is then neither replaced nor appended. |
| RefreshKey.OneLineMidKeyKeptAsIs | src/commands/plugin/refresh-key.ts:96-108 | A one-line file with `DEBUG_API_KEY=` only after its first character is kept unchanged. |
| RefreshKey.MidLineExample | src/commands/plugin/refresh-key.ts:96-108 | A line `MY_DEBUG_API_KEY=…` is left as it is. |
| RefreshKey.LastRefreshWins | src/commands/plugin/refresh-key.ts:86-115 | Refreshing with one key and then another gives the same file as refreshing once with the second key. |
| RefreshKey.WriteFailure | src/commands/plugin/refresh-key.ts:116-127 | `EACCES` gives the permission-denied message. Any other error gives "Failed to update .env file: " and its message. |
| RefreshKey.EnvFile.Update | src/commands/plugin/refresh-key.ts:86-128 | A successful write sets the file to the rewritten content of the old one (empty when missing). A failed write leaves it unchanged and reports the write failure. |
| RefreshKey.Run | src/commands/plugin/refresh-key.ts:15-48 | A load error throws. No token exits with code 1 and the hint. With a token, the key request is sent exactly when a hub is given. A fetch or write failure exits with code 1 and the failure message, and leaves `.env` unchanged. Success writes the rewritten `.env` and logs the masked key. |
| DeviceLogin.Classify | src/commands/auth/login.ts:136-161 | A payload resolves exactly when it has no error. `access_denied` and `expired_token` reject with code 0. Other errors reject with code 1 and the error description. `authorization_pending` keeps polling, and so does `slow_down`, each exactly for that error. |
| DeviceLogin.Poll | src/commands/auth/login.ts:115-166 | At most one request per response. The first waits the starting interval. The interval never shrinks. |
| DeviceLogin.PollStopsAtFirstTerminal | src/commands/auth/login.ts:136-161 | Polling stops right after the first response that ends it, with that response's outcome. It keeps waiting only when no response ended it. |
| DeviceLogin.PollIntervals | src/commands/auth/login.ts:141-144 | Every delay is the starting interval plus 5 seconds per `slow_down` received before it. |
| DeviceLogin.WaitsNeverDecrease | src/commands/auth/login.ts:141-144 | The delays between requests never decrease. |
| DeviceLogin.PendingPendingSlowDownToken | src/commands/auth/login.ts:136-164 | The answers pending, pending, slow_down, token give delays 5, 5, 5, 10 and resolve with the token. |
| DeviceLogin.DeniedStopsPolling | src/commands/auth/login.ts:145-152 | `access_denied` ends the command after one request with exit code 0. |
| DeviceLogin.TokenUpdate | src/commands/auth/login.ts:80 | The update sets only the access token from the payload. |
| DeviceLogin.TokenUpdateKeepsEndpoint | src/commands/auth/login.ts:80 | Merging the token update into a valid configuration keeps its endpoint and stays valid. |
| DeviceLogin.AuthLogin.PollForToken | src/commands/auth/login.ts:115-166 | The object's outcome, final interval, delays and requests are those of `Poll`. Each request has the device-code grant type, the client id and the device code. |
| DeviceLogin.AuthLogin.HandleResponse | src/commands/auth/login.ts:134-161 | Polling goes on exactly for pending and slow_down, and slow_down adds 5 to the interval. Any other payload ends with its terminal outcome. |
| DeviceLogin.AuthLogin.Run | src/commands/auth/login.ts:36-100 | A load error or a missing endpoint fails before any request, with the interval, delays, requests and endpoint unchanged. Otherwise the endpoint is taken from the configuration, and the requests, delays and final interval are those of `Poll`. A rejection exits with its code. A token is saved merged into the loaded configuration. Every run that receives no token, such as a denied or expired login, leaves the file as `load` left it. |
| Generator.SplitPermission | src/utils/generator.ts:88 | `scope:entry…` splits into the scope before the first colon and the entry up to the next one. |
| Generator.GroupPermissions | src/utils/generator.ts:84-100 | The groups are sorted by scope and have distinct scopes. Every permission's scope has a group. Each group lists the entries of its scope in input order. |
| Generator.GroupingIsUnique | src/utils/generator.ts:84-100 | There is only one grouping of a list of permissions. |
| Generator.GroupingKeepsEveryEntry | src/utils/generator.ts:84-100 | The groups hold as many entries as there are permissions. |
| Generator.EmptyGrouping | src/utils/generator.ts:84-100 | No permissions group to no groups, and only to those. |
| Generator.ThreeGrouping | src/utils/generator.ts:84-100 | `a:r, a:w, b:r` with `b` before `a` groups to `b:[r]` then `a:[r, w]`. |
| Generator.GroupingExample | test/utils/generator.test.ts:181-201 | `http:read, http:write, fs:read` groups to `fs:[read]`, `http:[read, write]`. |
| Generator.PermissionInput | src/utils/generator.ts:40-44 | Absent permissions make the `reduce` throw. A list is grouped. |
| Generator.NewTypeScriptPluginGeneratorAsWritten | src/utils/generator.ts:40-44 | The source's constructor: absent permissions throw, and a list is replaced by its grouping. |
| Generator.NewTypeScriptPluginGenerator | src/utils/generator.ts:40-44 | The constructor as its tests expect it: absent permissions become the empty grouping, and a list is replaced by its grouping. |
| Generator.CreatePluginGenerator | src/utils/generator.ts:18-28 | `typescript` builds the TypeScript generator. Any other type throws "not implemented". |
| Generator.TemplateNames | src/utils/generator.ts:67-69 | A file is a template exactly when its name ends in `.eta` with any case. The target name drops that extension. Other names are kept. |
| Generator.TreeMirrors | src/utils/generator.ts:58-82 | Every write lands at the target path matching its source path. It holds the rendered template or a copy of that source. |
| Generator.TreeDirectoryFirst | src/utils/generator.ts:58-82 | Every file is written after its directory was created. |
| Generator.TreeWritesEveryFile | src/utils/generator.ts:58-82 | One file is written per file of the template tree. |
| Generator.TreeWritesExactly | src/utils/generator.ts:58-82 | Each file of the template tree, at relative directory `d`, is written at `target + d` under its target name, rendered exactly when it is a template. Each sub-directory at relative path `q` is created at `target + q`, and so is the target. Nothing else is written. |
| Generator.GenerateFiles | src/utils/generator.ts:58-82 | Walking a tree changes the disk exactly as its list of writes does. |
| Generator.Generate | src/utils/generator.ts:46-56 | The disk receives the common and language writes. It succeeds exactly when both template directories exist, and otherwise fails with "no such directory". |
| Generator.GenerateStaysInTarget | src/utils/generator.ts:46-82 | Everything `generate` writes lies below the target, mirrors one of the two template trees and comes after its directory. |
| PluginInit.NameShape | src/commands/plugin/init.ts:116-118 | A name matches the pattern exactly when it has 4 to 64 characters, starts with a lower-case letter, ends with a lower-case letter or digit, and otherwise holds only those, `_` and `-`. |
| PluginInit.DescriptionShape | src/commands/plugin/init.ts:181 | Descriptions are accepted exactly when they have 16 to 256 characters on one line. |
| PluginInit.AuthorShape | src/commands/plugin/init.ts:194 | Author names are accepted exactly when they have 2 to 64 characters on one line. |
| PluginInit.RefusedNames | test/commands/plugin/init.test.ts:31-56 | No name, `abc`, `1plugin` and `my-plugin-` are not valid names. |
| PluginInit.AcceptedName | src/commands/plugin/init.ts:116-118 | `my-test-plugin` is a valid name. |
| PluginInit.AcceptedNameWithDigits | test/commands/plugin/init.test.ts:92-97 | `my-plugin-123` is a valid name. |
| PluginInit.AcceptedNameWithUnderscores | test/commands/plugin/init.test.ts:99-104 | `my_test_plugin` is a valid name. |
| PluginInit.Reconciled | src/commands/plugin/init.ts:120-137 | Interactive mode stays on exactly when it was on and the name is not valid. The command exits exactly when it was off and the name is not valid. |
| PluginInit.CommandFlags.ReconcileInteractiveFlag | src/commands/plugin/init.ts:120-137 | The flag and the exit follow `Reconciled`. No other flag changes. |
| PluginInit.Prompted | src/commands/plugin/init.ts:162-321 | A prompt reads at most the replies it is given, and an answer it returns is one the prompt accepts. |
| PluginInit.StopOf | src/commands/plugin/init.ts:154-158 | A prompt error stops the interview as cancelled exactly when its name is `ExitPromptError`. Any other error is rethrown with its message. |
| PluginInit.Settling | src/commands/plugin/init.ts:162-321 | The index of the first reply that settles a prompt: every reply before it is refused and re-asked. |
| PluginInit.PromptSettles | src/commands/plugin/init.ts:162-321 | A prompt reads the replies up to the first that settles it and no further. It resolves with that reply's value, or stops as that reply's error says. With no such reply it is closed as cancelled and no reply is left. |
| PluginInit.Interview | src/commands/plugin/init.ts:139-160 | Answer `i` is acceptable for question `i`. No prompt stops it exactly when all eight are answered. |
| PluginInit.FirstFailed | src/commands/plugin/init.ts:145-159 | The index of the first reply that makes a prompt throw: no reply before it throws. |
| PluginInit.InterviewStopsAtFirstError | src/commands/plugin/init.ts:145-159 | An interview that stops does so right after the first throwing reply, as that reply's error says. If no reply throws, it stops only when the replies run out, as cancelled. One that does not stop has read no throwing reply. |
| PluginInit.LocalesCollected | src/commands/plugin/init.ts:228-258 | The locales start with `en_US`, follow the ticked boxes and keep the order of the menu, with no locale twice. |
| PluginInit.Interviewed | src/commands/plugin/init.ts:145-153 | A finished interview leaves: a valid name; a description and an author their patterns accept; locales starting with `en_US`; a language and a type offered by the menus. |
| PluginInit.CommandFlags.RunInteractiveMode | src/commands/plugin/init.ts:139-160 | The flags become the interview's answers, in question order. A prompt that throws stops it. |
| PluginInit.ValidNameSkipsPrompts | src/commands/plugin/init.ts:94-98 | A valid `--name` skips every prompt. Without prompts and without a valid name the command prints its hint and exits 0. |
| PluginInit.PreparedNameIsValid | src/commands/plugin/init.ts:100 | Whenever `run` gets past the prompts the name is valid, so its name assertion never fails. |
| PluginInit.PromptErrorEndsRun | src/commands/plugin/init.ts:139-160 | In interactive mode the banner is printed, and the command stops exactly when fewer than eight answers were collected. It stops at the first throwing reply: exit code 0 on `ExitPromptError`, otherwise rethrowing its message. Running out of replies exits 0. |
| PluginInit.LanguageMissingOnlyWithoutPrompts | src/commands/plugin/init.ts:101 | The language assertion fails only when the command ran without prompts and without `--language`. |
| PluginInit.GenerationProps | src/commands/plugin/init.ts:103-111 | The props handed to the generator carry no `permissions`. |
| PluginInit.PropsCarryFlags | src/commands/plugin/init.ts:103-111 | The props carry every flag. `interactive` is a boolean. `description`, `author`, `email` and `url` are always texts. `name`, `language` and `type` are texts and `locales` is a list exactly when the flag is set; an unset one is left out. |
| PluginInit.PropsCarryClock | src/commands/plugin/init.ts:103-111 | The props carry `createdAt` as the timestamp, `date` as its first ten characters and `year`. |
| PluginInit.InitReachesUndefinedReduce | src/commands/plugin/init.ts:103-111 | The generator's input from `plugin init` always meets the undefined `reduce`. |
| PluginInit.Launched | src/commands/plugin/init.ts:101-111 | A missing language fails the assertion. A language other than `typescript` is not implemented. Otherwise the TypeScript generator targets `cwd/name` with empty permissions. |
| PluginInit.Run | src/commands/plugin/init.ts:91-114 | The flags and replies left are those of the preparation. An early end leaves the disk untouched. Otherwise the disk gets the generator's writes, and the command completes exactly when both template directories exist. |

## Left out

- `ConfigStore.IsUrl` approximates the URL check of the schema library as a scheme of letters followed by `:`. Full WHATWG URL parsing is not modelled.
- The location of the configuration file (`CHOICEFORM_CONFIG_DIR`, the home directory) and `mkdir` of its directory are not modelled. The store is a single file value.
- `ConfigStore.Store.Save` cannot fail once the configuration is valid: a failing `mkdir` or `writeFile` is not modelled.
- `ConfigStore.Store.Load`: a `readFile` that fails after `access` succeeded is not modelled. A present file is always readable.
- `ConfigStore.LoadResult`: an access error other than `ENOENT` is rethrown with its own message in the source; the model's error carries only the error code. The message of a missing-file error leaves out the path. JSON text is not modelled: the file holds a parsed document or an unparsable one.
- `fetch`, JSON decoding of response bodies and `setTimeout` are not modelled. Responses are inputs, requests are recorded values, and timer delays are recorded in seconds.
- `auth login` opens a browser, shows a spinner and fetches the session after it saves the token. These are console or network effects, and the model ends once the token is saved.
- `DeviceLogin.AuthLogin.Run`: the device-code request is not modelled. The authorization it returns is an input.
- `DeviceLogin.AuthLogin.Run` takes the second `load` inside `update` to see what the first returned. No other process writes the file in between, and `LoadIsIdempotent` covers that case.
- `AuthStatus.Status`: date formatting is a parameter, and colours and the exact layout of the printed lines are left out.
- `RefreshKey.Run` takes the hub endpoint as a parameter. The stored configuration can never supply it: see Findings.
- `RefreshKey.Run` reflects the second `load`, the one inside `fetchDebugApiKey`, only through its `hub` parameter. With the file already created by the first `load`, it returns the same configuration.
- `RefreshKey.ReplacesFirstKeyLine` and `RefreshKey.LastRefreshWins` require keys without `$` (both keys, for `LastRefreshWins`), and `RefreshKey.LastRefreshWins` also requires the first key to be a single line. A `$` in the key would trigger the replacement patterns of `String.prototype.replace`. `RefreshKey.Expand` models those patterns, but the lemmas do not cover them.
- `PluginInit.Prompted`: the prompt library's own behaviour is a sequence of replies given in advance. This covers re-asking after a refused answer and defaults on an empty answer.
- `PluginInit.Prompted`: the e-mail and URL prompts accept any text in the model. Their validators are not modelled.
- `PluginInit.Run`: the flag parser of the command framework (`--type` options, defaults, unknown flags) is not modelled. The parsed flags are an input.
- `PluginInit.Run`: dedent and colours of the printed text are not modelled, and `new Date()` is a `Clock` parameter read once.
- `Generator.CreatePluginGenerator` calls the corrected constructor `NewTypeScriptPluginGenerator`. As written, the constructor throws `Cannot read properties of undefined (reading 'reduce')` whenever the props carry no `permissions` (`NewTypeScriptPluginGeneratorAsWritten`): see Findings.
- `PluginInit.Launched` builds the generator with the corrected constructor. As written, every `typescript` launch throws the `reduce` error, because the props `plugin init` builds never hold `permissions` (`PluginInit.InitReachesUndefinedReduce`).
- `PluginInit.Run` models the command with the corrected constructor, so it can reach `generate`. As written, the source never gets that far: once the language is `typescript`, `run` throws the `reduce` error.
- `RefreshKey.MaskApiKey` counts characters, where JavaScript's `length` and `slice` count UTF-16 code units. The two differ only for keys with characters outside the Basic Multilingual Plane.
- `Generator.Generate` renders Eta templates symbolically: a rendered file records its template and the props.
- `Generator.Generate` runs the two `#generateFiles` calls of `Promise.all` one after the other. The model does not interleave them.
- `Generator.Generate` takes `readdir` order as given. `mkdir` of ancestor directories is reduced to creating the target and its sub-directories.
- `Generator.GroupPermissions` models `localeCompare(…, "en")` as code-point order, which agrees with it on scopes made of lower-case ASCII letters.
- Case-insensitive `.eta` matching lowers ASCII letters only.
- `PluginInit.DescriptionShape` and `PluginInit.AuthorShape`: the regular expressions of `plugin init` treat `.` as any character except the line terminators, on characters rather than UTF-16 code units.
- Console output other than the lines each command records is not modelled, and neither are `auth/index.ts`, `plugin/index.ts`, `theme.ts` and `views.ts`.

## Findings

| source | as written | input that shows it | evidently intended | confidence | as-written member | corrected member |
|---|---|---|---|---|---|---|
| src/utils/generator.ts:40-44 | The constructor calls `reduce` on `context.props.permissions`, which throws when the props carry no `permissions` | Any `plugin init`: its props never set `permissions` (`PluginInit.InitReachesUndefinedReduce`) | Absent permissions group to `[]`, as test/utils/generator.test.ts:203-217 expects | not executed; high | Generator.NewTypeScriptPluginGeneratorAsWritten | Generator.NewTypeScriptPluginGenerator |
| src/commands/plugin/refresh-key.ts:52-53 | `fetchDebugApiKey` reads `hub.endpoint` from the loaded configuration, but the schema (src/utils/config.ts:15-22) keeps only `auth` | Any stored file, even one with a `hub` key: the key is dropped, and the command always fails with "Hub endpoint is required" | The hub endpoint comes from configuration the command can read | not executed; medium | RefreshKey.StoredHubIsDropped | RefreshKey.Run |

The rest of the model uses the corrected members. `Generator.CreatePluginGenerator` calls
`NewTypeScriptPluginGenerator`, and `RefreshKey.Run` receives its hub endpoint as a
parameter.
