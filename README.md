# Configuration skill and debounced file watcher — a verified model

This project models the two pieces of sequential logic in the Mycroft
configuration skill repository.

**The debounced file watcher** (`file_watch.py`). A `FileWatcher` registers
one `Handler` per file on the file's directory, non-recursively. Each handler
watches one path and keeps the time of the last accepted change, which starts
at 0. An incoming event passes the filter when it is not a directory event,
its kind is `created` or `modified`, and its path equals the watched path. It
then fires only when strictly more than 0.3 s have passed since the last
accepted change. A firing records the clock and calls the callback with the
path. Time is an integer count of milliseconds from a monotonic clock, so the
window is 300. The two clock readings the handler takes (the comparison, then
the recorded time) are parameters, and the second is never smaller than the
first. The callback becomes the handler's return value, and over a sequence of
deliveries it becomes a log of firings (`FileWatch.Run`).

**The configuration skill** (`__init__.py`). `parse_tts` walks the
text-to-speech settings list. It stops at the first entry whose `active` value
is truthy, strips `@type` and `active` from that entry in place, and returns
`{'module': type, type: entry}`. `ConfigurationSkill.update` adds a truthy
location and the parsed text-to-speech entry to the fetched settings. It then
compares `hash(str(config))` with the stored hash (initially `''`). Only when
they differ does it emit `configuration.updated`, store the new hash and
return True. `handle_update_intent` speaks `config.updated` or
`config.no_change`; on an HTTP 401 it emits `mycroft.not.paired`. `notify`
logs a warning for a 401 and schedules itself again. Both handlers catch only
HTTP errors: a failed request (no connection, a timeout) or a parse error
escapes them, and in `notify` it escapes before the skill schedules itself
again, so polling stops.

Python values decoded from JSON are the datatype `Values.Value`. A dictionary
is a `map<string, Value>`, and truthiness is `Values.Truthy`. The fetched
settings and location, an HTTP error status, or a request failure that is not
an HTTP error, are the input `Skill.Fetch`.
`hash(str(config))` is a function `hashOf` given to the skill's constructor,
about which nothing is assumed. Emitted messages, spoken dialogs, warnings and
reschedules are logs kept in the skill object.

An active entry whose `@type` is the string `"module"` is modelled as the
source behaves: the entry's settings overwrite the `'module'` key
(`Configuration.TtsValueNamedModule`).

Files: `wrappers.dfy` (Option, Result), `file_watch.dfy` (module
`FileWatch`), `values.dfy` (module `Values`), `configuration.dfy` (module
`Configuration`: `parse_tts`), `skill.dfy` (module `Skill`: the
`ConfigurationSkill` class).

## Model

| member | source | states |
|---|---|---|
| FileWatch.Handler.constructor | file_watch.py:38-43 | a new handler watches the given path and its last change is 0 |
| FileWatch.Handler.OnAnyEvent | file_watch.py:45-56 | the new last change and the callback are those of `Step`; a dropped event leaves the last change as it was; a firing calls back with the watched path and records a time no earlier than the check, more than 300 after the old last change |
| FileWatch.FilteredOutChangesNothing | file_watch.py:47-56 | an event that is a directory event, of another kind, or for another path changes nothing and calls nothing |
| FileWatch.FiresIffRelevantAndDue | file_watch.py:47-54 | an event fires exactly when it passes the three-part filter and the elapsed time is strictly greater than 300; otherwise the last change is unchanged |
| FileWatch.FiringRecordsAndReports | file_watch.py:53-56 | a firing sets the last change to the second clock reading, which is no earlier than the check, and calls back once with the event's path, equal to the watched path |
| FileWatch.FirstRelevantEventFires | file_watch.py:43-53 | from the initial last change 0, a relevant event fires exactly when the clock reads above 300 |
| FileWatch.RunAppend | file_watch.py:45-56 | delivering two sequences one after the other is running the second from the state the first leaves, with the firing logs concatenated |
| FileWatch.RunInvariant | file_watch.py:43-56 | over any delivery sequence every firing names the watched path, firings are spaced by more than 300 from the previous recorded time, and the final last change is the last firing's time (or the initial one) and never smaller than the initial one |
| FileWatch.FiringsMoreThanWindowApart | file_watch.py:53-54 | the recorded times of consecutive callback invocations are more than 300 apart |
| FileWatch.LastChangeNeverDecreases | file_watch.py:53-54 | the last change after a prefix of the deliveries is never larger than after a longer prefix |
| FileWatch.DroppedDeliveryIsInvisible | file_watch.py:50-54 | a dropped delivery does not extend the window: the run continues exactly as if it had not arrived |
| FileWatch.QuietWithinWindow | file_watch.py:50-54 | deliveries all within 300 of the last accepted change fire nothing and leave the last change as it was |
| FileWatch.BurstFiresOnce | file_watch.py:50-56 | a burst whose first event fires and whose later events come within 300 of it yields exactly one callback, with the watched path |
| FileWatch.SpacedDeliveriesAllFire | file_watch.py:53-56 | relevant events each more than 300 after the previous recorded time all fire, one callback each, in arrival order |
| FileWatch.FileWatcher.constructor | file_watch.py:17-23 | one fresh handler per file, in order, each for that file with last change 0, registered non-recursively on the file's directory; all handlers are distinct objects, so their debounce states are independent |
| FileWatch.Dirname | file_watch.py:20 | the directory of a path is a prefix of the path |
| FileWatch.DirnameOfChild | file_watch.py:20 | the directory of `dir/name` is `dir` when `name` has no slash and `dir` does not end in one |
| FileWatch.FiresOnlyInWatchedDirectory | file_watch.py:20-23 | a handler fires only for events whose path lies in the directory it is registered on |
| FileWatch.TwoFilesShareDirectory | file_watch.py:19-23 | `/a/config.yml` and `/a/other.yml` are both registered on `/a` |
| FileWatch.TwoFilesScenario | file_watch.py:45-56 | a double save of one file 50 ms apart calls back once for it, and a save of a sibling 10 ms later calls back once for the sibling |
| Configuration.FirstActive | __init__.py:36-39 | the search stops at an index of an active entry, or fails with no active entry or an entry that is not a dictionary |
| Configuration.FirstActiveSkip | __init__.py:36-39 | skipping inactive dictionary entries does not change where the search stops |
| Configuration.FirstActiveBefore | __init__.py:36-39 | every entry before the one chosen is an inactive dictionary |
| Configuration.FirstActiveIsFirst | __init__.py:36-39 | the search stops at `k` if and only if entry `k` is active and every entry before it is an inactive dictionary |
| Configuration.NoActiveEntryIsError | __init__.py:36-40 | a list of inactive dictionaries, the empty list included, fails with no active entry |
| Configuration.MissingTypeIsError | __init__.py:40 | a chosen entry without `@type` fails |
| Configuration.LaterEntriesIgnored | __init__.py:36-40 | entries after the first active one never change the chosen module or entry |
| Configuration.ChoiceIsFirstActiveStripped | __init__.py:36-51 | a successful choice is the first active entry of a list; the module is its `@type`; the returned entry keeps every other key with its value; the list is left with that entry stripped in place |
| Configuration.StrippedEntryRestores | __init__.py:40-46 | putting `@type` and `active` back into the returned entry gives the original entry |
| Configuration.TtsValueShape | __init__.py:49-52 | for a module not named `"module"`, the result has exactly the keys `'module'` (the type) and the type (the stripped entry) |
| Configuration.TtsValueNamedModule | __init__.py:49-52 | for a module named `"module"`, the result holds only the stripped entry under `'module'` |
| Configuration.ParseTts | __init__.py:29-52 | the loop with `break` and the in-place removal compute exactly `TtsEntry`, errors included |
| Skill.AssembledConfiguration | __init__.py:89-93 | the assembled configuration holds the parsed entry under `tts`, the stripped settings list, and a truthy location under `location`; with a falsy location the `location` key is as fetched; every other fetched setting is unchanged |
| Skill.MissingTtsSettingsFails | __init__.py:93 | with no `ttsSettings` the default empty list leaves no active entry |
| Skill.UpdateReportsChangeIffHashDiffers | __init__.py:95-100 | an update returns True, and emits `configuration.updated` with the configuration, exactly when the hash differs from the stored one; afterwards the stored hash is the configuration's |
| Skill.FailedUpdateChangesNothing | __init__.py:88-100 | an update that fails stores nothing and emits nothing |
| Skill.FirstUpdateReportsChange | __init__.py:56-100 | starting from the initial empty hash, the first update that assembles a configuration returns True |
| Skill.UpdateIdempotent | __init__.py:88-100 | a second update with the same fetched data returns False, emits nothing and keeps the stored hash |
| Skill.ApiErrorMessage | __init__.py:102-104 | a message is emitted exactly for status 401 |
| Skill.IntentReactionCases | __init__.py:70-77 | `config.updated` is spoken exactly after a change, `config.no_change` exactly after none; a message is emitted exactly for HTTP 401; every error that is not an HTTP error (a failed request, a parse error) escapes, and it is that error |
| Skill.SecondAskReportsNoChange | __init__.py:70-100 | asking twice with the same fetched data always answers `config.no_change` the second time |
| Skill.ReactToNotify | __init__.py:79-86 | the warning is logged exactly for HTTP 401; the skill reschedules itself unless an error that is not an HTTP error (a failed request, a parse error) escapes, and the escaping error is that error |
| Skill.ConfigurationSkill.constructor | __init__.py:56-60 | the stored hash starts empty and every log empty |
| Skill.ConfigurationSkill.Update | __init__.py:88-100 | the result, the new stored hash and the emitted messages are those of `UpdateStep` |
| Skill.ConfigurationSkill.ApiError | __init__.py:102-104 | the not-paired message is appended exactly for status 401 |
| Skill.ConfigurationSkill.HandleUpdateIntent | __init__.py:70-77 | updates as `UpdateStep`, then speaks, emits and lets escape what `ReactToIntent` says |
| Skill.ConfigurationSkill.Notify | __init__.py:79-86 | updates as `UpdateStep`, then warns, reschedules and lets escape exactly the error `ReactToNotify` says |

## Left out

- The `watchdog` observer: `Observer()`, `observer.start`, `unschedule_all`, `stop` and `FileWatcher.shutdown`. They are third-party I/O and thread lifecycle. Which handlers the observer gives each event to is also not modelled; `FileWatch.FiresOnlyInWatchedDirectory` shows that a handler only reacts to events in its own directory.
- The per-handler `threading.Lock` and the `time.sleep(0.1)` before the callback. They serialise threads and delay the callback. The model is sequential.
- `time.monotonic()` returns floating-point seconds. The model uses integer milliseconds, so intervals finer than 1 ms are not represented.
- `FileWatch.FileWatcher.constructor` registers one watch per file, as the code does. Merging watches that share a directory is the observer's concern.
- The remote device API (`DeviceApi`, `find_setting`, `find_location`) and the `requests` exceptions. They become the input `Skill.Fetch`: an `HTTPError` with its status, or any other request failure. Which of the two calls failed, and which kind of request failure it was, are not distinguished.
- The message bus, `speak_dialog` and `log.warn` become logs in the skill object. `ScheduledSkill.schedule` becomes a counter of reschedules.
- `initialize`, `IntentBuilder`/`register_intent`, `get_times`, `stop`, `create_skill` and `max_delay`. These are framework glue.
- `hash(str(config))` is an unknown function of the configuration's value. `str` of a Python dict depends on key insertion order; the model's dictionaries have no order.
- Python aliasing: the dict `parse_tts` returns under the module name is the same object as the stripped list entry. The model gives both the same value. Nothing later mutates either.
- Configuration.ParseTts: an active entry whose `@type` is not a string fails with `TypeNotString`, because the model's keys are strings. Python would accept a hashable value (a number, a boolean, None) as the key. It would raise only for a list or a dict, after the pops.
- The fetched settings are always a dictionary (`map<string, Value>`); a non-dictionary answer from the API is not modelled.
