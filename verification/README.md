# Link monitor, chat gateway and dashboard — a Dafny model

This project models the three cooperating parts of a small network-link
monitor.

- **The monitor (`app.py`).** It pings every link of every unit, tracks each
  link's state, and announces an outage to a chat group once it has lasted
  fifteen minutes. It sends a recovery notice for announced outages only, and
  twice a day on weekdays it sends a report of the outages still open.
- **The chat gateway (`server.js`).** It mirrors the connection state of a
  messaging client (ready or not, and the last pairing code). It serves
  `/qr`, `/status` and `/enviar`, and answers the `/id` chat command with the
  chat's identifier.
- **The dashboard (`static/script.js`).** From the configured units and a
  sampled status table it derives the marker colours, the offline-links
  panel, the ordered unit list and the show/hide toggles.

Everything is stated as pure functions over immutable data. Each step returns
the new state, its result, and the effects it would perform instead of
performing them: a beep, a rewrite of the status file, a chat message, a
timer or a client restart.

| file | module | contents |
|---|---|---|
| `wrappers.dfy` | `Wrappers` | `Option` and `Result` |
| `py_dict.dfy` | `PyDict` | a Python `dict` with insertion order: `Put`, `Remove` |
| `js_text.dfy` | `JsText` | `String.prototype.trim` and ASCII `toLowerCase` |
| `link_monitor.dfy` | `LinkMonitor` | loss formula, `checar_link` state machine, report |
| `whatsapp_service.dfy` | `WhatsappService` | client events, HTTP handlers, `/id` matcher |
| `dashboard.dfy` | `Dashboard` | status sampling, markers, offline panel, unit list, toggle |

Modelling choices:

- **Time.** Time is a whole number of seconds.
- **Outage start in the status file.** The file stores the start as text. The
  report takes the formatter (`strftime("%Y-%m-%d %H:%M")`) as a parameter.
- **Loss.** The loss percentage is an exact rational (`real`). The ping
  outcomes are a sequence of booleans.
- **Outage table.** The persisted table is an insertion-ordered dictionary,
  because the report lists outages in the table's iteration order.
- **Missing outage start.** `checar_link` reads `offline_cache[key]` for a link
  marked offline. When that key is missing, Python raises `KeyError`; the model
  returns `Failure(MissingOutageStart(key))`. The invariant `Consistent`, which
  every check preserves, rules this case out.
- **Pairing-code encoder.** The encoder is a parameter returning `None` where
  it would throw.
- **Client send operation.** The send operation is a parameter returning
  `Delivered` or `Rejected(cause)`.
- **Dashboard randomness.** The random status draw is a parameter
  `sample(unit, link)`.

## Model

| member | source | states |
|---|---|---|
| LinkMonitor.Successes | app.py:90-93 | the count of answered pings is at most the number sent; it equals the number sent exactly when every ping was answered, and is zero exactly when none was |
| LinkMonitor.PingMultiplo | app.py:89-95 | the loop computes `100 * (1 - s/t)`; the result lies in 0..100, is 0 exactly when every ping was answered and 100 exactly when none was |
| LinkMonitor.LossArithmetic | app.py:95 | for `s` of `t` pings the loss is in 0..100, is 0 iff `s = t`, is 100 iff `s = 0`, and is below 30 iff `100*(t-s) < 30*t` |
| LinkMonitor.OnlineIffFewLost | app.py:168 | a link counts as online iff `100*(t - s) < 30*t` in whole pings |
| LinkMonitor.DefaultOnlineIffAllAnswered | app.py:89-95 | with the default three attempts a link is online iff all three pings were answered |
| LinkMonitor.LinkKey | app.py:163 | the key of a link is the unit name, a dash, then the provider name |
| LinkMonitor.LinkKeysCanCollide | app.py:163 | two different (unit, provider) pairs can share a key when a name contains a dash |
| LinkMonitor.Start | app.py:155-158 | the state at start-up (nothing checked, table as loaded) satisfies the flag/start-time invariant |
| LinkMonitor.RecordOutage | app.py:185-189 | after recording, the outage is in the table with its start; the unit is added if new; other units are untouched; no unit is left empty |
| LinkMonitor.ClearOutage | app.py:205-207 | after clearing, the outage is gone; the unit disappears iff it had no other outage; otherwise its other outages stay; other units are untouched |
| LinkMonitor.CheckLink | app.py:161-210 | the check returns `loss < 30` in every branch; it fails only for a link marked offline with no start time; the link's flag equals the result; other links' flags and start times and other units' outages are unchanged |
| LinkMonitor.FirstCheckCountsAsOnline | app.py:165-166 | checking an unseen link behaves as if it had been online |
| LinkMonitor.CheckKeepsConsistent | app.py:171-210 | from a state where a link is flagged offline iff its start time is known, every check succeeds and keeps that invariant |
| LinkMonitor.CheckKeepsNoEmptyUnit | app.py:185-207 | a check never leaves a unit with no outages in the table |
| LinkMonitor.GoingDown | app.py:175-179 | online→offline records the start time and clears the flag, beeps, sends no message and leaves the table alone |
| LinkMonitor.StayingDown | app.py:181-195 | a link that stays down gets its outage recorded (with its original start) and one alert exactly when it has been down at least `ALERTA_DELAY_SECONDS` = 900 s and is not yet recorded; otherwise nothing changes |
| LinkMonitor.ComingBack | app.py:197-210 | offline→online sets the flag and forgets the start; a recovery notice is sent iff the outage was recorded; the outage leaves the table and its unit goes once empty |
| LinkMonitor.StayingUp | app.py:171-173 | a link that stays up drops any start time, keeps the table and emits nothing |
| LinkMonitor.RunLink | app.py:161-210 | a run of checks of one link from a consistent state never fails and ends consistent; a run that succeeds never leaves a unit with no outages |
| LinkMonitor.OneAlertPerOutage | app.py:181-195 | over any run of failed checks from a consistent state, the link's offline alert is sent at most once, and never if it was already recorded |
| LinkMonitor.Report | app.py:239-252 | no report on weekdays 5 and 6; the all-clear text for an empty table; otherwise a text that starts with the header |
| LinkMonitor.ReportListsEveryOutage | app.py:247-252 | on a weekday with a non-empty table, every announced outage has its own line (unit, provider, start) after the header |
| LinkMonitor.EntriesAreTheOutages | app.py:248-250 | the report's entries are exactly the recorded outages with their start times, each (unit, provider) pair once |
| LinkMonitor.ReportListsSomeOutage | app.py:243-252 | on a weekday a non-empty table with no empty unit yields a report that is not the all-clear and lists at least one outage |
| WhatsappService.Boot | server.js:26-27 | the initial session is not ready and holds no pairing code |
| WhatsappService.OnEvent | server.js:32-68 | `ready` sets ready and clears the code; a rendered `qr` stores the code and clears ready; a failing encoder changes nothing; `auth_failure` changes nothing; `disconnected` clears ready, keeps the code and schedules one restart after 3000 ms; a ready session never holds a code |
| WhatsappService.Run | server.js:32-68 | handling a sequence of events yields at most one effect per event |
| WhatsappService.OneRestartPerDisconnect | server.js:60-68 | over any run each disconnection schedules exactly one restart, and restarts run plus restarts pending equal the disconnections |
| WhatsappService.RunKeepsPairingConsistent | server.js:32-68 | no sequence of events leaves a ready session with a pairing code |
| WhatsappService.GetQr | server.js:94-99 | `/qr` of a consistent session never reports ready together with a code |
| WhatsappService.GetStatus | server.js:102-104 | `/status` reports the same `ready` as `/qr` |
| WhatsappService.PairingThenReady | server.js:32-52 | after a rendered code `/qr` shows it with `ready: false`; after `ready` it shows `ready: true` and no code |
| WhatsappService.DisconnectedIsNotReady | server.js:60-62 | after a disconnection `/status` reports not ready |
| WhatsappService.PostEnviar | server.js:114-130 | nothing is sent and 400 is returned iff `group_id` or `mensagem` is falsy; `{ok: true}` iff the send resolves, with status 200; a rejected send gives 500 with the stringified cause |
| WhatsappService.EmptyTextIsRefused | server.js:118-122 | an empty `mensagem` is refused like a missing one |
| WhatsappService.EmptyBodyIsRefused | server.js:114-122 | a request whose body parses to `{}` gets the 400 reply and nothing is sent |
| WhatsappService.IsIdCommand | server.js:79 | a message can match only if it is exactly three characters long once trimmed |
| WhatsappService.IdCommandMeansShape | server.js:79 | `trim` then `toLowerCase` equals `/id` iff the message is `/`, `i`/`I`, `d`/`D` surrounded only by white space |
| WhatsappService.OnMessage | server.js:77-87 | a reply is sent iff the message is the `/id` command, and the reply ends with the chat's identifier |
| JsText.TrimStart | server.js:79 | the result is a suffix of the input; what is dropped is all white space; the result does not start with white space |
| JsText.TrimEnd | server.js:79 | the result is a prefix of the input; what is dropped is all white space; the result does not end with white space |
| JsText.Trim | server.js:79 | the result is the piece of the input that starts where the leading white space ends |
| JsText.TrimmedEnds | server.js:79 | the trimmed text neither starts nor ends with white space |
| JsText.TrimDropsWhiteSpace | server.js:79 | everything `trim` cuts off at either end is white space |
| JsText.ToLower | server.js:79 | lower-casing keeps the length and maps each character on its own, changing only A to Z |
| Dashboard.FindUnit | static/script.js:241 | looking up a unit succeeds iff the name is configured, and yields a unit of that name |
| Dashboard.FindUnitFinds | static/script.js:2-87 | with distinct unit names, looking a unit up by its name yields that very unit |
| Dashboard.FindIp | static/script.js:180 | a link's address is found iff the unit has a link of that name, and the link with that name and address is configured |
| Dashboard.SampleStatus | static/script.js:130-140 | the status table has exactly the configured units as keys, and each unit has exactly its link names, each with its sampled status |
| Dashboard.MarkerColors | static/script.js:148-166 | every unit with a status entry and a marker is coloured, and it is red iff one of its links is offline |
| Dashboard.MarkerFacts | static/script.js:150 | a unit with no links, or with every link online, is green; one offline link makes it red |
| Dashboard.OfflineLinks | static/script.js:169-185 | every unit of the status table gets an offline entry, holding exactly its links whose status is false, each with its address and the current time |
| Dashboard.MarkersAgreeWithPanel | static/script.js:148-185 | a marker is red iff its unit's offline entry is non-empty |
| Dashboard.PlaceholderAsWrittenNeedsNoUnits | static/script.js:174-200 | the placeholder as written shows iff the status table has no units at all |
| Dashboard.PlaceholderAsWrittenMissesAllOnline | static/script.js:174-200 | for one configured unit with every link online, the panel lists nothing and the placeholder as written is not shown either |
| Dashboard.PanelItems | static/script.js:187-194 | the panel has one line per (unit, link) of the offline table, and no other |
| Dashboard.PagePanel | static/script.js:187-200 | the panel as the page draws it: one line per offline link, and the placeholder only when there is no line (its test is on the units, see `PlaceholderAsWrittenNeedsNoUnits`) |
| Dashboard.CorrectedPanel | static/script.js:198 | the corrected panel (see Findings): same lines, and the placeholder exactly when there is no line |
| Dashboard.PlaceholderIffNothingOffline | static/script.js:188-200 | the corrected panel shows the placeholder iff no link in the status table is offline |
| Dashboard.LinkItems | static/script.js:241-247 | one item per configured link, in order, with its name and address; it reads online only when the status table has the unit and says that link is online |
| Dashboard.CreateUnitElement | static/script.js:224-257 | the entry carries the unit's name and selection flag, starts collapsed, and lists that unit's link items |
| Dashboard.MissingUnitShowsOffline | static/script.js:242 | every link of a unit missing from the status table is shown offline |
| Dashboard.OtherNames | static/script.js:215-216 | the unselected names are exactly the configured names other than the selection, with no repeats |
| Dashboard.UnitsList | static/script.js:204-221 | the list shows the selected unit first, marked selected, then the others in configuration order; only the first entry can be marked selected; every entry is built from its configured unit |
| Dashboard.UnitsListIsPermutation | static/script.js:209-220 | the list names each configured unit exactly once |
| Dashboard.ToggleLinks | static/script.js:260-270 | toggling flips whether the links are shown, and the button then reads "-" when shown and "+" when hidden |
| Dashboard.ToggleTwice | static/script.js:263-269 | toggling twice restores a toggle whose button matched its state |
| Dashboard.Refresh | static/script.js:130-145 | a refresh draws the panel lines from the offline table it has just computed |
| Dashboard.RefreshIsCoherent | static/script.js:130-145 | after a refresh every configured unit has a status entry, a marker and an offline entry; a marker is red iff its offline entry is non-empty; the placeholder shows iff no unit is configured |
| Dashboard.CorrectedRefresh | static/script.js:198 | the refresh with the corrected panel (see Findings) shows the placeholder exactly when the panel has no line |
| Dashboard.CorrectedRefreshIsCoherent | static/script.js:130-145 | the corrected refresh agrees with the page's refresh in everything but the placeholder, which it shows iff no sampled link is offline |
| Dashboard.RefreshListShowsSample | static/script.js:130-145 | after a refresh every link item of the unit list shows the status just sampled |

## Left out

- Pinging, the beep, the HTTP calls to the gateway and starting the Node server
  (`app.py` lines 59-87 and 116-152) are operating-system or network I/O. Ping
  outcomes are inputs; beeps and messages are effects.
- Loading and saving the status file (`app.py` lines 98-113) are file I/O. The
  initial table is any value, and a save is a `Persist` effect.
- The thread pool, `monitor_once`, `monitor_loop`, the scheduler and its worker
  threads (`app.py` lines 212-263) are concurrency and timing. Checks are
  modelled one link at a time, in sequence.
- The start-up message (`app.py` lines 283-290) and the Flask and Express
  routing, templates and body parsing are left out as plumbing.
- The Express major version is not fixed by the sources; the model assumes
  Express 4. There `express.json()` leaves `req.body` as `{}` when no JSON
  body arrives, so such a request gets the 400 reply (`EmptyBodyIsRefused`).
  Under Express 5 `req.body` stays `undefined`, the destructuring throws
  inside the `try`, and the handler answers 500; that case is not modelled.
- The messaging client, the browser it drives, and the terminal rendering of
  the pairing code are foreign libraries. The encoder is a parameter, and
  `qr` is treated as one atomic step.
- Leaflet, the DOM, the CSS injection and `Math.random` are left out. The map
  keeps only the set of units that have a marker, and the random draw is a
  parameter.
- `datetime.now().weekday()`, `strftime` and `toLocaleTimeString` are left out.
  The weekday and the times are inputs, and text formatting is a parameter.
- LinkMonitor.PingMultiplo: requires at least one attempt. Python would raise
  `ZeroDivisionError` for zero attempts, and every caller uses the default of
  three.
- LinkMonitor.LossArithmetic: the loss is exact rational arithmetic. Python's
  floating-point rounding of `100 * (1 - s / t)` is not modelled.
- JsText.ToLower: only the letters A to Z are lower-cased. Full Unicode case
  mapping is not modelled.
- Dashboard.UnitsList: the selection must be a configured unit, or absent.
  Selections only come from clicks on configured units. An unknown name would
  make `createUnitElement` throw.
- Dashboard.UnitsListIsPermutation: leaves out a unit whose name is the empty
  string. That name is falsy in JavaScript and is never shown first.
- Dashboard.FindUnit: JavaScript lists integer-like object keys before the
  others. The model keeps declaration order, which matches the configured
  names.
- LinkMonitor.Report: the contract says the text starts with the header, and
  `ReportListsEveryOutage` says each outage has its line after it. That the
  lines follow the table's iteration order, with nothing in between, is built
  into the definition but not stated as a separate property.
- LinkMonitor.CheckLink: the per-link maps use the key `unit + "-" + provider`,
  as the source does. Two links whose names contain dashes can share a key;
  the model keeps that behaviour and proves nothing about distinct links
  sharing state.

## Findings

| source | as written | input that shows it | evidently intended | confidence | as-written member | corrected member |
|---|---|---|---|---|---|---|
| static/script.js:198 | the "no offline links" placeholder is shown when `offlineUnits` has no keys, but line 176 gives every unit of `statusData` a key, even with no offline links | one configured unit "Manaus" with no links (or all links online): the panel lists nothing and shows no placeholder | show the placeholder whenever no link is offline | medium; not executed | Dashboard.PlaceholderAsWrittenMissesAllOnline | Dashboard.PlaceholderIffNothingOffline |

`Dashboard.Refresh` draws the panel as the page does (`PagePanel`), so it
keeps the behaviour of this row. `Dashboard.CorrectedRefresh` is the same
refresh with the corrected panel (`CorrectedPanel`).
