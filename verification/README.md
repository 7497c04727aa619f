# pieping scheduler model

pieping is a macOS menu-bar app that polls a list of HTTP endpoints.
Each endpoint gets its own request configuration, which has:

- a name, a URL and an interval;
- GET or POST, with an optional body.

This project models the bookkeeping that `AppDelegate` does on the main queue:

- the list of configurations;
- one repeating timer per configuration;
- the per-configuration pause flags;
- the latest check result per configuration.

It also models every event that changes these:

- launch and a timer tick;
- a menu click: manual call, "call all", the pause toggle, quit;
- a request's completion;
- the add, edit and delete dialog actions, each of which ends in a full restart of the timers.

The state is an immutable `State` value (`state.dfy`), and every event is a pure transition function.
A live timer is modelled as the configuration its closure captured, keyed by id.
The network is modelled as the trace `dispatched` of requests handed to it, plus a completion event carrying an `Outcome`.

Modules:

- `Options`: the option type.
- `Text`: whitespace trimming, decimal rendering of integers and truncation of a `Double` to `Int`.
- `State`: the entities and the state invariant `Wf`.
- `Probe`: `sendRequest`, the completion handler and `updateResult`.
- `Schedule`: timers, pause toggle, `startAllTimers`, `restartAllTimers`, launch and quit.
- `Display`: status glyph, interval label and main icon.
- `Controller`: form validation and the add, edit and delete actions.
- `Menu`: the tag dispatch of `menuItemClicked`, one `Step` per event, and invariant preservation.

The central result is `Menu.StepPreservesWf` with `Menu.RunPreservesWf`. Every event except quit keeps the invariant `Wf`, which says:

- configuration ids are distinct;
- timers and flags exist only for configured ids;
- a configuration has a timer exactly when it is not paused;
- that timer captured the configuration's current value.

The model keeps these behaviours of the code, some of them surprising:

- `startAllTimers` sends one immediate request for every configuration, paused ones included (AppDelegate.swift:280-283). Only the timer loop skips paused configurations.
- Every add, edit and delete clears all pause flags, because `restartAllTimers` empties `pausedTimers` (line 469). `Controller.DeleteIsRestart` shows that delete's own removal of the flag and the result is therefore redundant.
- Resuming a paused configuration arms a timer but sends no request.
- An unparsable URL is recorded as a failure with status 0, response time 0 and the error text `"유효하지 않은 URL"`, and no request is sent.
- A completion that arrives after its configuration was deleted still writes a results entry for the stale id (`Menu.StaleCompletionAddsEntry`).
- Status rows are tagged `1000 + index`, and the toggle case only covers tags 1000..<1100. With more than 1000 configurations, tag 1000 is caught first by the manual-call case (`Menu.StatusTagCollision`). Rows from the 101st on (index 100 and up, tags from 1100) never toggle (`Menu.StatusRowClick`).

## Model

| member | source | states |
|---|---|---|
| Schedule.StartTimer | pieping/AppDelegate.swift:304-320 | exactly one timer remains for the configuration's id, it captured that configuration, and every other id's timer and all other state are unchanged |
| Schedule.Tick | pieping/AppDelegate.swift:311-318 | an invalidated timer does nothing; a paused configuration's tick does nothing; otherwise the tick is one `sendRequest` for the captured configuration, so at most one request is dispatched and timers and flags are untouched |
| Schedule.TickOfArmedTimer | pieping/AppDelegate.swift:311-318 | under the invariant every live timer's tick is `sendRequest` for the current configuration with that id |
| Schedule.TogglePause | pieping/AppDelegate.swift:246-268 | a status-row click outside the list changes nothing; otherwise the flag flips (absent counts as not paused), pausing removes exactly that id's timer, resuming re-arms it through `startTimer`, and results and the request trace are unchanged |
| Schedule.PauseResumeRestoresTimers | pieping/AppDelegate.swift:246-268 | pausing then resuming a running configuration restores the timers exactly, leaves it unpaused and dispatches nothing |
| Schedule.Arm | pieping/AppDelegate.swift:285-299 | the timer loop adds a timer exactly for the ids of non-paused configurations and leaves every other timer alone |
| Schedule.ArmCaptures | pieping/AppDelegate.swift:285-299 | with distinct ids each non-paused configuration's timer captured that configuration |
| Schedule.StartAllTimers | pieping/AppDelegate.swift:277-301 | every configuration, paused or not, is stamped and gets its request dispatched if its URL parses; then only non-paused configurations gain timers; configurations and flags are unchanged |
| Schedule.Restart | pieping/AppDelegate.swift:462-476 | after a restart no configuration is paused, the timers and results are keyed by exactly the configured ids, and one request per parseable configuration is dispatched |
| Schedule.RestartTimers | pieping/AppDelegate.swift:462-476 | after a restart each configuration's timer captured that configuration |
| Schedule.RestartResults | pieping/AppDelegate.swift:462-476 | after a restart each result is blank except `lastCalled`, or is the invalid-URL failure when the URL does not parse |
| Schedule.RestartWf | pieping/AppDelegate.swift:462-476 | a restart of any state with distinct ids establishes the invariant |
| Schedule.Launch | pieping/AppDelegate.swift:115-142 | launch loads the configurations with no pause flags and starts all timers, so timers and results cover exactly the configured ids |
| Schedule.LaunchIsRestart | pieping/AppDelegate.swift:436-450 | launching equals a restart from the empty state, including when the list is empty and `startAllTimers` is skipped |
| Schedule.Quit | pieping/AppDelegate.swift:428-433 | quitting leaves no timer and keeps the configurations, flags, results and request trace |
| Schedule.QuitSilencesTimers | pieping/AppDelegate.swift:428-433 | after quitting, a tick for any id changes nothing, because no timer is left |
| Probe.SendRequest | pieping/AppDelegate.swift:322-334 | `lastCalled` is stamped on a new or existing entry; an unparsable URL records the invalid-URL failure and dispatches nothing; a parsable one dispatches exactly that configuration; no other entry changes |
| Probe.DispatchableMembers | pieping/AppDelegate.swift:387-391 | the requests of a pass are exactly the configurations whose URL parses, and all of them when every URL parses |
| Probe.SendAll | pieping/AppDelegate.swift:387-391 | "call all" dispatches the parseable configurations in list order and changes no configuration, timer or flag |
| Probe.SendAllStamps | pieping/AppDelegate.swift:387-391 | after "call all" the result keys are the old keys plus every configured id, other entries are kept, and every configuration's `lastCalled` is the current time |
| Probe.SendAllResults | pieping/AppDelegate.swift:387-391 | with distinct ids each configuration's entry after "call all" is exactly what one `sendRequest` makes of its previous entry |
| Probe.Classify | pieping/AppDelegate.swift:357-381 | success holds exactly for an HTTP status in 200...299; the error is absent exactly on success; a transport error keeps its message, a non-HTTP response gets the unknown-response text, and a failing status gets "HTTP <code>"; the status code is 0 unless an HTTP response arrived |
| Probe.HttpErrorTextNamesCode | pieping/AppDelegate.swift:377 | the HTTP error text is "HTTP " followed by a decimal rendering from which the status code reads back |
| Probe.UpdateResult | pieping/AppDelegate.swift:393-399 | the entry is created if absent, its success, status code, response time and error are overwritten, `lastCalled` is kept, and no other entry changes |
| Probe.Complete | pieping/AppDelegate.swift:354-383 | a completion rewrites only its id's entry: success exactly for a 2xx status, error absent exactly on success, the status code and error text are the classification's (0 and the transport message, the HTTP code and "HTTP <code>", or 0 and the unknown-response text), response time recorded, `lastCalled` kept; nothing else changes |
| Display.StatusGlyph | pieping/AppDelegate.swift:191-198 | a status row shows ⏸ exactly when the flag is true, otherwise ✅ or ❌ exactly for a known success or failure, and ⏳ when the outcome is unknown |
| Display.MainIcon | pieping/AppDelegate.swift:404-418 | the main icon is ❌ exactly when some stored result is a known failure |
| Display.Interval | pieping/AppDelegate.swift:186-188 | intervals of 60 seconds or more are labelled in whole minutes, the others in whole seconds; the count is the truncated value of the interval in that unit |
| Controller.Validate | pieping/AppDelegate.swift:656-665 | a form is accepted exactly when trimmed name and URL are non-empty and the trimmed interval parses to a positive number; the stored interval is that number, the method is POST when POST was chosen and GET otherwise, and only POST keeps the trimmed body |
| Controller.FreshId | pieping/AppDelegate.swift:667 | a new id differs from every configured id |
| Controller.AddConfig | pieping/AppDelegate.swift:655-670 | an invalid form changes nothing; a valid one appends one configuration with a fresh id and the checked fields, keeps the others in place, then restarts |
| Controller.AddKeepsIdsUnique | pieping/AppDelegate.swift:667-668 | adding keeps ids distinct |
| Controller.EditConfig | pieping/AppDelegate.swift:992-1006 | an out-of-range index or an invalid form changes nothing; otherwise only the chosen configuration is replaced, keeping its id, and every timer restarts |
| Controller.EditKeepsIdsUnique | pieping/AppDelegate.swift:1004 | editing keeps every id, so ids stay distinct |
| Controller.RemoveAt | pieping/AppDelegate.swift:1130 | removal shifts the later configurations down by one and keeps the earlier ones |
| Controller.DeleteConfig | pieping/AppDelegate.swift:1116-1134 | an out-of-range index changes nothing; otherwise the configuration is removed and its id keeps no timer, flag or result |
| Controller.DeleteIsRestart | pieping/AppDelegate.swift:1129-1134 | deleting equals removing the configuration and restarting |
| Controller.DeleteKeepsIdsUnique | pieping/AppDelegate.swift:1130 | deleting keeps ids distinct |
| Menu.TagCommand | pieping/AppDelegate.swift:229-275 | each tag is matched to exactly one case in the switch's order: dialog tags, quit, call all, a list index (manual call), 1000..<1100 (status-row toggle), otherwise ignored |
| Menu.Clicked | pieping/AppDelegate.swift:229-275 | a click never changes the configuration list and only appends to the request trace; dialog tags change nothing, quit, call all and manual call have their effects, a status-row tag toggles that row's pause whatever the list length, and any other tag changes nothing |
| Menu.ManualCallBypassesPause | pieping/AppDelegate.swift:242-245 | a manual call dispatches the request even for a paused configuration and leaves flags and timers alone |
| Menu.StatusRowClick | pieping/AppDelegate.swift:246-248 | with at most 1000 configurations, a status-row click toggles rows below 100 and ignores the others |
| Menu.StatusTagCollision | pieping/AppDelegate.swift:242-247 | with more than 1000 configurations, tag 1000 sends a request for the configuration at index 1000 instead of toggling the first row's pause |
| Menu.TogglePauseWf | pieping/AppDelegate.swift:246-268 | the pause toggle preserves the invariant |
| Menu.ClickedWf | pieping/AppDelegate.swift:229-275 | every click but quit preserves the invariant |
| Menu.AddWf | pieping/AppDelegate.swift:655-670 | adding preserves the invariant |
| Menu.EditWf | pieping/AppDelegate.swift:992-1006 | editing preserves the invariant |
| Menu.DeleteWf | pieping/AppDelegate.swift:1116-1134 | deleting preserves the invariant |
| Menu.StepPreservesWf | pieping/AppDelegate.swift:87-100 | every event except quit preserves the invariant: distinct ids, timers and flags only for configured ids, a timer exactly for each non-paused configuration, capturing its current value |
| Menu.LaunchWf | pieping/AppDelegate.swift:115-142 | launch with distinct ids establishes the invariant |
| Menu.Step | pieping/AppDelegate.swift:87-100 | no event rewrites the request trace; it can only append to it |
| Menu.Run | pieping/AppDelegate.swift:87-100 | over a run of main-queue events, each in its own environment, the request trace only grows and keeps its earlier entries in order |
| Menu.RunPreservesWf | pieping/AppDelegate.swift:87-100 | the invariant holds after any sequence of events without quit, whatever the clock reads at each event |
| Menu.ManualCallsStampTheirOwnClock | pieping/AppDelegate.swift:323-328 | two manual calls at different moments leave the second call's clock reading in `lastCalled` |
| Menu.PausedTickIsNoop | pieping/AppDelegate.swift:311-315 | under the invariant a timer event for a paused configuration changes nothing |
| Menu.StaleCompletionAddsEntry | pieping/AppDelegate.swift:393-399 | a completion for an id no configuration has still creates a results entry for it |
| Text.Trim | pieping/AppDelegate.swift:656-660 | the trimmed text has no whitespace at either end and is empty exactly when the input is all whitespace |
| Text.TrimIsSlice | pieping/AppDelegate.swift:656-660 | trimming removes only leading and trailing whitespace and returns the contiguous interior slice |
| Text.TrimIdempotent | pieping/AppDelegate.swift:656-660 | trimming twice is trimming once |
| Text.IntTextRoundTrip | pieping/AppDelegate.swift:377 | the decimal rendering of an integer in string interpolation reads back to that integer |
| Text.Trunc | pieping/AppDelegate.swift:186-188 | `Int(Double)` truncates toward zero: the result is the integer between zero and the value that is less than one away from it |

## Left out

- The AppKit user interface is not modelled: menu and dialog layout, alerts, `setupMenu`'s detail text, the edit dialog's prefilled fields (which show the interval as `Int(interval)`), and the method pop-up's enabling of the body field. A dialog is modelled only by the field texts at the moment its button is pressed.
- URLSession is not modelled: the SSL-ignoring delegate, request construction (HTTP method, body encoding, Content-Type header) and the data task itself. The network is the `dispatched` trace plus a `Completion` event with an `Outcome`.
- Timing is an input: `CFAbsoluteTimeGetCurrent` differences arrive as the completion's `elapsed`, and `Date()` is the natural-number clock `env.now`. Each event of a run carries its own environment, so the clock can move between events, while all requests sent within one event share one clock value. Timer periods are not modelled, so the relative number of ticks per configuration over time is outside the model.
- Foundation's `URL(string:)` and `Double(String)` are parameters (`env.parses`, `env.parseNumber`), not reimplemented.
- `uppercased()` on the pop-up title is the identity, because the pop-up only offers "GET" and "POST".
- `UUID()` is modelled as `Controller.FreshId`, an id larger than any in use.
- Persistence (`loadConfigurations`/`saveConfigurations`, Codable, UserDefaults) is not modelled: launch takes the decoded list as an argument, and saving has no effect on the modelled state.
- `addDebugLog` and the debug log are not modelled, because they have no effect on the state.
- The 2-second reset of the main icon and the menu's refresh on open and close are not modelled, because they only change what is displayed.
- Controller.Validate: infinite numbers are outside the model, because `env.parseNumber` returns a real. The app's `Double(String)` turns "inf" or "infinity" into +infinity, which passes the `interval > 0` guard (lines 662 and 999). The restart that follows then traps on `Int(config.intervalSeconds/60)` (line 296), so typing "inf" as the interval crashes the app.
- Overflow traps are not modelled: `Int(Double)` on values outside the `Int` range, and `1000 + index`. Integers are unbounded.
- Requests still in flight are not tracked: a completion event may arrive for any id, stale ones included.
