# zviewer core, modelled in Dafny

zviewer is a small web front end for Zellij terminal sessions. It has four parts, and this project models the logic of each one.

- **The backend** (`server.js`) runs `zellij list-sessions --no-formatting`. It parses each line of the listing into a session record `{name, createdAgo, status, raw}` and answers `GET /api/sessions` with one of three replies: the list, an empty "no sessions" reply, or a 500 error.
- **The visibility store** (`src/storage.js`) keeps, in the browser's `localStorage`:
  - the set of hidden session names, as a JSON array;
  - two switches: auto-hide exited sessions, and show hidden sessions.
- **The browser client** (`src/main.js`) keeps an `appState` record: the session list, the selected session, a loading flag and the sidebar flag. Clicks, arrow keys, Escape, the sidebar toggle, a finished fetch and a timer all change that record.
- **The reverse proxy** (`proxy-server.js`) sends each request to the first of four registrations that takes it, in this order:
  1. a local `GET /health`;
  2. the backend API, which strips `API_BASE_PATH`;
  3. the frontend, which keeps the path;
  4. the Zellij web client at the root, behind a path filter.

Modules:

- `Base` (base.dfy): `Option`.
- `Text` (text.dfy): JavaScript's white-space class and `trim()`, `split` on one character with its inverse `Join`, and `startsWith`.
- `SessionList` (session_list.dfy):
  - the line expression `^(.+?)\s+\[Created\s+(.+?)\s+ago\](.*)$`, modelled as the search a backtracking engine makes;
  - `parseZellijSessions`, as a loop proved against a filter-map specification;
  - the `/api/sessions` reply classification.
- `Json` (json.dfy): `JSON.stringify` of an array of strings, and a `JSON.parse` that accepts exactly the texts denoting an array of strings. The round trip between them is proved.
- `VisibilityStore` (visibility_store.dfy):
  - the class `SessionVisibilityStore`, with `localStorage` as a `map<string, string>` field that its methods update;
  - the specification functions that its methods are proved against.
- `AppState` (app_state.dfy):
  - the `appState` transitions as functions on a `State` value, with their properties;
  - the class `App`, whose fields the event handlers assign, proved against those functions.
- `Proxy` (proxy.dfy): routing as a pure function over the ordered registrations, with the web framework's path matching, which ignores the case of letters, beside the program's own case-sensitive filter and path rewrite.

## Model

| member | source | states |
|---|---|---|
| Text.Trim | server.js:23 | `trim()` leaves no white space at either end, keeps at most the input's length, and is empty exactly when the input is all white space |
| Text.TrimCutsEnds | server.js:23 | `trim()` returns a contiguous part of the input, with only white space cut off before and after it |
| Text.TrimIdempotent | server.js:30-32 | trimming a trimmed capture changes nothing |
| Text.Split | server.js:23 | `split('\n')` gives at least one part, no part contains the separator, and joining the parts gives back the input |
| Text.SplitOfJoin | server.js:23 | splitting undoes joining parts that do not contain the separator |
| SessionList.SpaceRunEnd | server.js:28 | the end of the maximal run of `\s` characters that starts at a position |
| SessionList.SpaceRunWithin | server.js:28 | any all-white-space stretch from a position ends within the maximal run, so the greedy `\s+` can only give characters back |
| SessionList.IsMatch | server.js:28 | the session expression can match a line with name group `line[..i]` and time group `line[k..q]`: non-empty lazy groups, non-empty white-space gaps, no line terminator inside; `MatchSplits` and `SplitIsMatch` tie it to the cut |
| SessionList.FindTimeEnd | server.js:28 | the lazy time group: the shortest end from a position on that lets `\s+ago\](.*)$` finish, and none shorter does |
| SessionList.FindTimeStart | server.js:28 | the greedy `\s+` after `[Created`: time-group starts are tried from the end of the white-space run backwards, and the first that can finish is returned; none later can |
| SessionList.FindName | server.js:28 | the lazy name group: a span it returns ends the name group no earlier than where the search started, and is a match of the whole expression |
| SessionList.FindNameNone | server.js:28 | when the search from a position fails, no match has its name group ending there or later |
| SessionList.FindNameFirst | server.js:28 | no match whose name group ends at or after the starting position comes before the returned one in backtracking order |
| SessionList.MatchLine | server.js:28 | a match that is returned satisfies every constraint of the expression |
| SessionList.MatchLineFirst | server.js:28 | the returned match is the first in backtracking order: shortest name group, then longest time-group start, then shortest time group |
| SessionList.MatchLineNone | server.js:28-29 | a line is skipped exactly when the expression cannot match it in any way |
| SessionList.MatchSplits | server.js:28 | a match cuts the line into name, white space, `[Created`, white space, time, white space, `ago]` and tail, with no line terminator in the groups |
| SessionList.SplitIsMatch | server.js:28 | conversely, every such cut of a line is a match |
| SessionList.ShortestName | server.js:28-30 | whenever a line can be cut that way, it matches, and the name group ends at the earliest marker that lets the whole line match |
| SessionList.EarliestNameEnd | server.js:28 | when some match has its name group ending at a position, the line matches and the returned name group ends there or earlier |
| SessionList.CarriageReturnLineNeverMatches | server.js:23-28 | a line that still ends in `\r` after the split on `\n` never matches, since `.` does not match a line terminator and `$` needs the end |
| SessionList.BlankLineNeverMatches | server.js:28 | a blank line never matches |
| SessionList.ToSession | server.js:30-38 | the record keeps the line as `raw`, its name, age and status carry no white space at either end, and its status is never empty |
| SessionList.GroupsOf | server.js:28-32 | the three capture groups of a match: the name, the time, and the text after `ago]` |
| SessionList.StatusOf | server.js:32-36 | the status, falling back to `active`: never empty and without white space at either end; `active` when the tail is blank, the trimmed tail otherwise |
| SessionList.SessionOf | server.js:28-39 | a line yields a record exactly when it matches |
| SessionList.SessionFields | server.js:30-38 | `raw` is the line and `name`/`createdAgo` are the trimmed groups; `status` is never empty, is the trimmed tail, and is `active` exactly when the tail is blank or reads `active` |
| SessionList.Parsed | server.js:26-41 | the filter-map specification of the loop: each line in order contributes its record when it matches; its properties are the `Parsed*` lemmas |
| SessionList.NonBlankLines | server.js:23 | every listed line is free of `\n` and is not blank, and a line is listed exactly when it is a non-blank part of the trimmed output split on `\n` |
| SessionList.KeepNonBlank | server.js:23 | the `filter(line => line.trim())` step: the kept lines are the non-blank ones, no more than the input, each one of the input lines |
| SessionList.KeepNonBlankAppend | server.js:23 | the filter keeps order: filtering two runs of lines in a row gives the kept lines of the first followed by those of the second |
| SessionList.KeepNonBlankSingle | server.js:23 | a single line is kept exactly when it is not blank |
| SessionList.ParsedStep | server.js:26-41 | one more line adds that line's record, or nothing |
| SessionList.ParseZellijSessions | server.js:22-44 | the pushed records are exactly the filter-map of the expression over the non-blank lines, in order |
| SessionList.ParsedAppend | server.js:26-41 | records come out in input order: the records of two listings in a row are the records of the first followed by those of the second |
| SessionList.ParsedSingle | server.js:29-40 | a single line yields its record if it matches, and nothing otherwise |
| SessionList.ParsedLength | server.js:23-41 | there are never more records than non-blank lines |
| SessionList.ParsedFromLines | server.js:38 | every record's `raw` is one of the lines, and that line yields exactly this record |
| SessionList.ListSessions | server.js:47-81 | success iff the command exited normally, or failed with code 1 and empty stdout; success iff status 200; `count` equals the number of sessions; the sessions are the parse of stdout; code 1 with empty stdout gives the fixed no-sessions reply; otherwise the error is the failure message, with `details` set to stderr when non-empty and to stdout otherwise |
| SessionList.SessionsReply.HttpStatus | server.js:47-81 | a reply has status 200 exactly when it is a success, and 500 otherwise |
| SessionList.SessionsReply.Success | server.js:59-79 | the `success` field: true for a list or the no-sessions reply, false for a failure |
| Json.QuoteRoundTrip | src/storage.js:11-22 | a string literal as `JSON.stringify` writes it reads back as the string, and the text after it is left over |
| Json.ArrayRestRoundTrip | src/storage.js:11-22 | the elements of a non-empty array, as written, read back as the list of strings |
| Json.ParseStringify | src/storage.js:11-22 | the JSON text the store writes for a list of names parses back to that same list |
| Json.StringifyNonEmpty | src/storage.js:11 | the stored text is never empty, so `getHiddenSessions` reaches `JSON.parse` |
| Json.Stringify | src/storage.js:22 | `JSON.stringify` of an array of strings: the text is an array, starting with `[`; `ParseStringify` reads it back |
| Json.Parse | src/storage.js:11 | `JSON.parse` restricted to arrays of strings: the list denoted by the text, or nothing for any other text; `ParseStringify` is its round trip with `Stringify` |
| VisibilityStore.SetAdd | src/storage.js:21 | `Set.add` keeps the old members in their order, adds only the name, and keeps a list without duplicates that way |
| VisibilityStore.SetDelete | src/storage.js:31 | `Set.delete` removes the name, keeps every other member, keeps a list without duplicates that way, and changes nothing when the name is absent |
| VisibilityStore.SetDeleteAppend | src/storage.js:31 | `Set.delete` keeps the order of the other members: deleting from two runs in a row is deleting from each |
| VisibilityStore.Distinct | src/storage.js:20 | `new Set(list)` has no duplicates and has the same members as the list |
| VisibilityStore.DistinctKeepsFirstOrder | src/storage.js:20 | the set lists the names in the order of their first appearance |
| VisibilityStore.DistinctOfDistinct | src/storage.js:20 | a list without duplicates is its own set |
| VisibilityStore.HiddenIn | src/storage.js:8-16 | what `getHiddenSessions` returns from a storage; `HiddenRoundTrip` and `Defaults` state its properties |
| VisibilityStore.AutoHideExitedIn | src/storage.js:38-46 | what `getAutoHideExited` returns from a storage; `SwitchesRoundTrip` and `Defaults` state its properties |
| VisibilityStore.ShowHiddenIn | src/storage.js:56-64 | what `getShowHidden` returns from a storage; `SwitchesRoundTrip` and `Defaults` state its properties |
| VisibilityStore.Hide | src/storage.js:18-26 | the storage after `hideSession`; `HiddenAfterHide` and `HideIdempotent` state its properties |
| VisibilityStore.Unhide | src/storage.js:28-36 | the storage after `unhideSession`; `HiddenAfterUnhide` and `UnhideUndoesHide` state its properties |
| VisibilityStore.Cleared | src/storage.js:74-82 | the storage after `clearAll`; `ClearedStore` states its properties |
| VisibilityStore.SessionVisibilityStore.GetHiddenSessions | src/storage.js:8-16 | the result is the stored list; it is empty when the key is absent or empty, or when the stored text does not parse |
| VisibilityStore.SessionVisibilityStore.HideSession | src/storage.js:18-26 | the new storage is the old one with the hidden list replaced by its set plus the name |
| VisibilityStore.SessionVisibilityStore.UnhideSession | src/storage.js:28-36 | the new storage is the old one with the hidden list replaced by its set minus the name |
| VisibilityStore.SessionVisibilityStore.GetAutoHideExited | src/storage.js:38-46 | false only when the stored text is exactly `false` |
| VisibilityStore.SessionVisibilityStore.SetAutoHideExited | src/storage.js:48-54 | writes `true`/`false` under its own key and nothing else |
| VisibilityStore.SessionVisibilityStore.GetShowHidden | src/storage.js:56-64 | true only when the stored text is exactly `true` |
| VisibilityStore.SessionVisibilityStore.SetShowHidden | src/storage.js:66-72 | writes `true`/`false` under its own key and nothing else |
| VisibilityStore.SessionVisibilityStore.ClearAll | src/storage.js:74-82 | a loop over the keys removes exactly `STORAGE_KEYS` from the storage |
| VisibilityStore.HiddenRoundTrip | src/storage.js:10-22 | a list written under the hidden key reads back as itself |
| VisibilityStore.HiddenAfterHide | src/storage.js:20-22 | after hiding, the list is the old set with the name appended when absent; it has no duplicates, keeps every old name and adds only the name |
| VisibilityStore.HideIdempotent | src/storage.js:18-26 | hiding twice leaves the same storage as hiding once |
| VisibilityStore.HiddenAfterUnhide | src/storage.js:30-32 | after unhiding, the list is the old set without the name; it has no duplicates, and its members are the old names other than that one |
| VisibilityStore.UnhideAbsent | src/storage.js:30-32 | unhiding a name that is not hidden leaves the set of the old list |
| VisibilityStore.UnhideUndoesHide | src/storage.js:18-36 | unhiding a name just hidden, and not hidden before, restores the old set |
| VisibilityStore.SwitchesRoundTrip | src/storage.js:38-68 | each getter returns what its setter last wrote |
| VisibilityStore.SettingsIndependent | src/storage.js:18-72 | each setter, and hide and unhide, leaves what the other getters return unchanged |
| VisibilityStore.Defaults | src/storage.js:8-64 | an empty storage reads as nothing hidden, auto-hide on and show-hidden off |
| VisibilityStore.ClearedStore | src/storage.js:1-5 | clearing removes exactly the three keys, leaves every other key and value, and the getters are back at their defaults |
| VisibilityStore.StorageKeysDistinct | src/storage.js:1-5 | the three settings are stored under three different keys |
| VisibilityStore.BoolText | src/storage.js:50-68 | `toString()` of a boolean: the text is `true` exactly for true and `false` exactly for false, the texts the getters compare with |
| AppState.IndexOfName | src/main.js:280 | `findIndex` by name: the first position holding the name, or -1 when no session has it |
| AppState.NavigateIndex | src/main.js:283 | the new index lies in the list: it is the stepped index when that is in range, and otherwise the nearer end |
| AppState.CurrentIndex | src/main.js:278-281 | the index navigation moves from: -1 without a selection, else the first position holding the selected name, which is found whenever the selection is listed |
| AppState.Arrow.Direction | src/main.js:270 | Up moves by -1 and Down by +1 |
| AppState.SidebarDataOf | src/main.js:35-51 | the client sees success exactly for a successful reply, and the sessions only of a listed reply |
| AppState.Rendered | src/main.js:35-68 | the `appState` part of `renderSidebar`: only a successful, non-empty list replaces `sessions`; `RenderOwnList` and `LoadedOutcome` state its properties |
| AppState.Selected | src/main.js:161-166 | `selectSession` up to the timer; `SelectUnlisted`, `SelectListed` and `SelectDistinct` state its properties |
| AppState.LoadingElapsed | src/main.js:173-175 | the loading timer clearing `loading`; `SelectionStaysListed` states that it keeps the selection listed |
| AppState.Loaded | src/main.js:180-197 | `loadSessions` once the fetch has resolved; `LoadedOutcome` and `LoadedWithoutList` state its properties |
| AppState.Escaped | src/main.js:261-263 | the Escape key; `EscapeAndToggle` states its properties |
| AppState.Toggled | src/main.js:241-243 | the sidebar toggle; `EscapeAndToggle` states its properties |
| AppState.Navigated | src/main.js:275-288 | `navigateSessionsWithKeyboard`; `NavigateSelectsClamped`, `NavigateFromNothing`, `NavigateAtEnds` and `NavigateEmpty` state its properties |
| AppState.App.constructor | src/main.js:9-17 | the initial state: no sessions, no selection, not loading, sidebar open |
| AppState.App.RenderSidebar | src/main.js:32-68 | the state update of rendering the sidebar |
| AppState.App.SelectSession | src/main.js:160-171 | the new state is `Selected` of the old |
| AppState.App.LoadingTimerFired | src/main.js:173-176 | the timer clears only `loading` |
| AppState.App.LoadSessions | src/main.js:180-202 | the new state is `Loaded` of the old and the fetch result |
| AppState.App.PressEscape | src/main.js:260-265 | the new state is `Escaped` of the old |
| AppState.App.ToggleSidebar | src/main.js:241-244 | the new state is `Toggled` of the old |
| AppState.App.NavigateSessionsWithKeyboard | src/main.js:275-289 | the new state is `Navigated` of the old |
| AppState.App.PressArrow | src/main.js:268-271 | Up navigates by -1 and Down by +1 |
| AppState.RenderOwnList | src/main.js:169 | re-rendering the sidebar with its own list changes nothing |
| AppState.SelectUnlisted | src/main.js:161-163 | selecting a name that is not listed changes nothing |
| AppState.SelectListed | src/main.js:162-166 | selecting a listed name selects the first record of that name, as `find` does, and sets loading; the list and the sidebar are unchanged |
| AppState.SelectDistinct | src/main.js:162-165 | with distinct names, selecting a session's name selects that very session |
| AppState.NavigateSelectsClamped | src/main.js:275-288 | with a non-empty list, navigation selects the session at the clamped index, by name, and sets loading |
| AppState.NavigateFromNothing | src/main.js:278-283 | with no selection, or an unlisted one, both arrows select the first session |
| AppState.NavigateAtEnds | src/main.js:279-285 | the current index holds the selection's name; Down on the last session keeps that session selected, and so does Up on the first |
| AppState.NavigateEmpty | src/main.js:276 | with an empty list, navigation changes nothing |
| AppState.LoadedOutcome | src/main.js:187-197 | only a successful, non-empty fetch replaces the list; a selection survives exactly when its name is in the fetched list; loading and the sidebar are unchanged |
| AppState.LoadedWithoutList | src/main.js:191-197 | a failed fetch, or an empty list, keeps the old list and clears the selection |
| AppState.EscapeAndToggle | src/main.js:241-265 | Escape clears only the selection; the toggle flips only the sidebar flag, and toggling twice restores the state |
| AppState.SelectionStaysListed | src/main.js:160-289 | every event keeps the selection among the listed sessions, and a finished fetch establishes that from any state |
| AppState.State.SelectionListed | src/main.js:160-289 | the invariant that a selected session's name is in the list; `SelectionStaysListed` proves every event keeps it |
| Proxy.SameIgnoringCase | proxy-server.js:30-72 | equality up to the case of ASCII letters, the framework's default for routes and mounts |
| Proxy.LowercaseMatch | proxy-server.js:30-72 | between strings without upper-case ASCII letters, comparing ignoring case is plain equality and plain `startsWith` |
| Proxy.ZellijTarget | proxy-server.js:13-14 | the Zellij target URL: `http://`, the host, `:` and the port; `DefaultTargets` gives its default |
| Proxy.BackendTarget | proxy-server.js:15-16 | the backend target URL: `http://`, the host, `:` and the port |
| Proxy.FrontendTarget | proxy-server.js:17-25 | the frontend target URL, which carries the frontend base path |
| Proxy.DefaultTargets | proxy-server.js:11-25 | the default settings give the targets `http://127.0.0.1:8083`, `http://localhost:3001` and `http://localhost:5173/zviewer` |
| Proxy.Registrations | proxy-server.js:30-72 | the registrations in the order the code makes them: the health route, the API mount, the frontend mount, then the root mount refusing the frontend base and `/health` |
| Proxy.Upstream.WebSocket | proxy-server.js:61-75 | only the frontend and root mounts set `ws: true`; `WebSocketRoutes` states which routes forward upgrades |
| Proxy.UnderMount | proxy-server.js:43-72 | the framework's mount rule: the path is the base without a trailing slash, or continues it with `/`, ignoring case |
| Proxy.HealthRequest | proxy-server.js:30 | what the health route takes: `GET` or `HEAD` on a path `HealthPath` accepts |
| Proxy.HealthPath | proxy-server.js:30 | the paths the health route matches: `/health`, with an optional trailing slash, ignoring case |
| Proxy.PassesFilter | proxy-server.js:77-81 | the root filter: a path passes exactly when it starts with none of the refused prefixes, compared case-sensitively |
| Proxy.OnSomeRoute | proxy-server.js:30 | some route, whatever its method, matches the path: when no registration takes an `OPTIONS` request, this decides whether the framework answers it |
| Proxy.Takes | proxy-server.js:30-81 | whether one registration takes a request: a route by method and path, a mount by prefix and, for the root, its filter |
| Proxy.StripApiBase | proxy-server.js:46 | the API path rewrite: when the path starts with the API base path, case-sensitively, the result is what follows it; otherwise the path is kept |
| Proxy.Dispatch | proxy-server.js:30-89 | what each registration does with a request it takes: the health reply, or the upstream, target and forwarded path |
| Proxy.Route | proxy-server.js:29-89 | the first registration that takes the request handles it; when none does, an `OPTIONS` request on a route's path gets the framework's 200 listing `GET,HEAD`, and anything else 404; `RouteDecision` writes it out |
| Proxy.FirstTaker | proxy-server.js:29-89 | the first registration, in registration order, that takes the request; none before it takes it |
| Proxy.RouteDecision | proxy-server.js:29-89 | the route is the chain: a health request, else the API mount, else the frontend mount, else the root mount when the path passes the filter, else the framework's `OPTIONS` answer on a health path, else 404 |
| Proxy.DefaultRoute | proxy-server.js:13-89 | the same chain for the default settings, with the mount bases `/zviewer/api`, `/zviewer` and `/` and the `OPTIONS` answer on a health path written out |
| Proxy.RootMountTakes | proxy-server.js:72 | the root mount takes the empty path and every path that starts with `/` |
| Proxy.HealthIsLocal | proxy-server.js:30-40 | the health reply is given exactly for a health request, in any case; the framework's `OPTIONS` answer only for `OPTIONS` on a health path; no path starting with `/health` reaches Zellij |
| Proxy.OptionsOnHealthPath | proxy-server.js:30-81 | with the defaults, `OPTIONS` on a health path that starts with `/health` as written gets the framework's 200 listing `GET,HEAD`; any other case of its letters passes the root filter and reaches Zellij |
| Proxy.ApiPathStripped | proxy-server.js:43-46 | a path under the API mount that is not a health request goes to the backend's `/api` target; the API base path is removed when the path starts with it exactly, and putting it back gives the original path; otherwise the path is forwarded whole |
| Proxy.FrontendKeepsPath | proxy-server.js:57-60 | the frontend receives the path unchanged, relative to a target that already carries the base path |
| Proxy.WebSocketRoutes | proxy-server.js:43-75 | WebSocket forwarding applies exactly to the routes other than the API |
| Proxy.ApiShadowsFrontend | proxy-server.js:42-57 | with the defaults, API paths lie inside the frontend mount, yet always reach the backend |
| Proxy.ZellijTakesTheRest | proxy-server.js:42-81 | with the defaults, Zellij receives a path exactly when it starts with neither `/zviewer` nor `/health`, lies outside the frontend mount ignoring case, and is not a health request |
| Proxy.ZellijTakesLowercase | proxy-server.js:72-81 | for paths without upper-case letters, Zellij receives exactly those that start with neither `/zviewer` nor `/health` |
| Proxy.HealthzNotServed | proxy-server.js:77-81 | `GET /healthz` is refused by the root filter because it starts with `/health`, and no other route takes it: the answer is 404 |
| Proxy.PostHealthNotServed | proxy-server.js:30-81 | the health route answers only `GET` and `HEAD`, and the root filter refuses `/health`, so `POST /health` gets 404 |
| Proxy.ZviewerxNotServed | proxy-server.js:77-81 | `/zviewerx` lies outside the frontend mount, yet the filter's plain `startsWith` on `/zviewer` refuses it, so it gets 404 |
| Proxy.HealthAnyCase | proxy-server.js:30 | `GET /HEALTH` is answered locally |
| Proxy.UpperFrontendPath | proxy-server.js:57-81 | `/ZVIEWER/x` reaches the frontend with its path unchanged: the mount ignores case and comes before the case-sensitive root filter |
| Proxy.UpperApiPathKept | proxy-server.js:43-46 | `/ZVIEWER/API/x` reaches the backend, but the case-sensitive rewrite leaves the path whole |

## Left out

- Running `zellij`, `localStorage` exceptions, `fetch`, the timers (`setTimeout`, `setInterval`, auto-refresh), the DOM and its markup, and console logging. A command outcome, a fetch result and a timer expiry are inputs to the model.
- The forwarding itself in the proxy is not modelled: byte streaming, `changeOrigin`, WebSocket piping, and how the proxy library joins a target path with a request path. The model stops at the upstream, the target and the path decision.
- Route matching is the web framework's, and the model assumes its default settings:
  - routes and mounts compare paths ignoring the case of ASCII letters, so `GET /HEALTH` is answered locally and `/ZVIEWER/x` reaches the frontend;
  - case folding of letters outside ASCII is not modelled;
  - a `GET` route also answers `HEAD`, and takes its path with or without one trailing slash;
  - an `OPTIONS` request that no registration takes, on a path a route matches, gets the framework's own 200 reply listing the route's methods, `GET,HEAD`, in the `Allow` header and the body;
  - query strings are not part of the path.
- The API and frontend forwards assume that the proxy library sees the request's original URL, not the path with the mount's base removed: the API rewrite then applies to a path that still starts with the API base, and the frontend receives the path under `/zviewer` whole. `StripApiBase` and `FrontendKeepsPath` rest on this.
- The 500 replies sent when an upstream cannot be reached are not modelled: the model has no notion of a failed connection.
- A mount's base is assumed to be a literal path prefix. `API_BASE_PATH` is also used unescaped inside a regular expression by the API path rewrite; regex metacharacters in it are not modelled.
- Whether the installed proxy library honours the `filter` option is not visible. The model follows what the code states: the root mount proxies only paths that pass the filter, and every other path falls through to 404.
- The timestamp in the health reply is not modelled.
- VisibilityStore.HiddenIn: stored JSON that is valid but is not an array of strings is not modelled.
  - `getHiddenSessions` returns such a value unchanged, and `new Set` of a string iterates its characters.
  - The model reads any such text as `[]`, as it does malformed text.
- Json.Parse: surrogate `\u` escapes are refused rather than combined into one character, because a Dafny `char` is a Unicode scalar value.
- SessionList.ParseZellijSessions: strings are sequences of Unicode scalar values, not UTF-16 code units. A line holding an unpaired surrogate is not modelled.
- The `error`, `autoRefresh` and `refreshInterval` fields of `appState` are not modelled. No modelled transition writes `error`, and the other two belong to the timers.
- The Ctrl+R shortcut and the refresh button both start `loadSessions`. That is modelled as `App.LoadSessions` with the fetch result as input.
- vite.config.js is build configuration and is not part of this model.
