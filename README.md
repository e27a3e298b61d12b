# Free Epic game fetcher — a Dafny model of its pipeline

The tool polls the Epic Games Store promotions endpoint and decides which promoted games are
currently free. It turns those into report records with a store URL and tells the user, through
one toast notification per game and a text, JSON or HTML report. Two programs share this
pipeline: the one-shot command (`main.go`, `output.go`) and the tray application, which calls the
library package `pkg/epic`. The package also schedules a daily re-check at a local wall-clock time
and keeps the timezone for it in memory and in `config.json`.

The model, one Dafny module per part:

- `GoTime` (gotime.dfy). The values Go's `time` package supplies.
  - An instant is an integer count of nanoseconds since the Unix epoch, the resolution of `time.Time`.
  - A location is a fixed UTC offset.
  - A parsed timestamp keeps the offset written in its text.
  - `time.Parse(time.RFC3339, ·)` and `time.LoadLocation` are function parameters (`Parser`, `ZoneDatabase`). Being functions, parsing the same text twice agrees.
- `EpicGames` (games.dfy). `IsCurrentlyFree` and `NormalizeData` of pkg/epic/fetcher.go. The loop is proved equal to the specification function `Normalized`, and the normaliser's properties are lemmas about that function.
- `EpicFormat` (format.dfy). `InferFormat`, with `strings.ToLower` on ASCII letters and `filepath.Ext` using the Windows path separators `/` and `\` (the tool pushes Windows toast notifications).
- `EpicConfig` (config.dfy). The timezone state:
  - the package variable `location` and config.json, as the class `ZoneState`;
  - its `LoadConfig`, `SaveConfig`, `SetTimeZone` and `GetTimeZone`;
  - pure transition functions for the same steps, with lemmas about them.
- `EpicSchedule` (schedule.dfy). The next-fire computation of `RunAt` and its loop, run over a finite sequence of iterations. Each iteration is a clock reading plus the `SetTimeZone` calls, any number and in order, made while the loop sleeps.
- `Output` (output.dfy). `FormatText` of output.go.
- `Cli` (cli.dfy). `main` of main.go after flag parsing:
  - its copies of the predicate, the normaliser and format inference, proved equal to the package's;
  - the three-attempt retry;
  - the notification dispatch;
  - the format switch with its panic.
  Fetch results and notification results are oracles indexed by call number. The clock reading and the two time layouts (`Stamp`, `Rfc1123`) are parameters.

Where the documented behaviour of the tool and its code disagree, the model follows the code:

- An unknown `--format` value reaches `panic` (main.go:98-99). It does not fall back to text. The model returns `UnknownFormat`, after the notifications have been sent.
- A `SetTimeZone` whose save fails still leaves the new location in effect (pkg/epic/fetcher.go:205-210). The update is not all-or-nothing.
- Records are not required to have a non-empty title. The code checks only the slug.
- `RunAt` adds 24 absolute hours, not a calendar day (pkg/epic/fetcher.go:190). With fixed offsets the two agree.
- `RunAt` does not rule out a duplicate firing. If the clock reading taken after the task still equals the instant just fired, the next iteration computes that same instant and runs the task again at once (`EpicSchedule.NextFireAtNextFire`, pkg/epic/fetcher.go:187-192).
- `SaveConfig` can report an error although the new config was written whole: `os.WriteFile` returns the error of the final close (`EpicConfig.ReportedFailureCanPersist`).

Because `--format` defaults to `text` (main.go:34), the command consults the output path's extension only when `--format` is given as the empty string (`Cli.DefaultFlagSkipsInference`).

## Model

| member | source | states |
|---|---|---|
| `EpicGames.IsCurrentlyFree` | pkg/epic/fetcher.go:97-107 | false when the status is not exactly ACTIVE, when the expiry is "" or "null", or when it does not parse; otherwise true exactly when now is strictly before the parsed expiry |
| `EpicGames.FreeAtEarlierInstant` | pkg/epic/fetcher.go:106 | an entry free at `now` is free at every earlier instant: freeness is never gained by waiting |
| `EpicGames.NotFreeAtExpiry` | pkg/epic/fetcher.go:106 | at the expiry instant itself the entry is not free (strict `Before`) |
| `EpicGames.NormalizeData` | pkg/epic/fetcher.go:110-130 | the loop (including the dead re-parse `continue`) returns exactly `Normalized` of its input |
| `EpicGames.NormalizedAppend` | pkg/epic/fetcher.go:111-129 | normalising a concatenation is the concatenation of the normalised parts, so input order is kept |
| `EpicGames.NormalizedSingle` | pkg/epic/fetcher.go:112-127 | one entry gives its record iff it is free and has a non-empty slug, else nothing |
| `EpicGames.EntryEmittedIffKept` | pkg/epic/fetcher.go:112-127 | an entry anywhere in the input contributes its record, at its place, iff it is free with a non-empty slug |
| `EpicGames.NormalizedLength` | pkg/epic/fetcher.go:111-129 | the output is never longer than the input |
| `EpicGames.NormalizedRecords` | pkg/epic/fetcher.go:122-127 | every record has a non-empty slug, URL = store base + slug, an expiry strictly after now, and equals the record of a kept input entry (title and slug copied) |
| `EpicGames.SameTitleBothKept` | pkg/epic/fetcher.go:111-129 | no deduplication: two free entries with the same title and distinct slugs both appear, in order |
| `EpicGames.EmptySlugDropped` | pkg/epic/fetcher.go:113 | an entry with an empty slug is dropped even when free |
| `EpicGames.ActiveAndExpiredScenario` | pkg/epic/fetcher.go:110-130 | of an ACTIVE and an EXPIRED entry expiring in 2999, only the ACTIVE one is reported, with URL https://store.epicgames.com/p/a |
| `EpicFormat.Ext` | pkg/epic/fetcher.go:138 | the extension that `filepath.Ext` takes is never longer than the path |
| `EpicFormat.ExtIsLastDotSuffix` | pkg/epic/fetcher.go:138 | the extension is the suffix from the last dot with no dot or separator after it, and is empty iff every dot is followed by a separator |
| `EpicFormat.InferFormat` | pkg/epic/fetcher.go:133-149 | a non-empty explicit format is returned lowered; otherwise the result is one of text/json/html, json iff the lowered extension is ".json", html iff it is ".html" or ".htm" |
| `EpicFormat.ExtOfSuffix` | pkg/epic/fetcher.go:138-146 | appending an extension to any path makes it that path's extension |
| `EpicFormat.ExtOfLower` | pkg/epic/fetcher.go:138 | lowering the path and then taking the extension equals lowering its extension |
| `EpicFormat.InferFormatIgnoresCase` | pkg/epic/fetcher.go:137-148 | inference gives the same format for a path and its lower-case form |
| `EpicFormat.InferFormatFromExtension` | pkg/epic/fetcher.go:139-146 | any path ending in .json/.JSON, .html/.HTM or .txt gives json, html or text |
| `EpicFormat.InferFormatFallsBackToText` | pkg/epic/fetcher.go:137-148 | an empty output, or one without a recognised extension, gives text |
| `Output.FormatText` | output.go:17-27 | the buffer loop returns exactly `Text` of the records |
| `Output.TextOfNothing` | output.go:17-27 | no records give the empty string |
| `Output.TextAppend` | output.go:20-24 | the text of a concatenation is the concatenation of the texts, so records appear in input order |
| `Output.TextOfOne` | output.go:21-23 | one record contributes exactly Title, newline, URL, newline, "Free until: " + the RFC 1123 UTC time, blank line |
| `Output.TextLength` | output.go:18-26 | the output length is the sum of the per-record block lengths |
| `Output.TextEndsInBlankLine` | output.go:18-26 | the output is empty iff there are no records, and otherwise ends in "\n\n" |
| `EpicConfig.LoadResult` | pkg/epic/fetcher.go:46-57 | no error exactly when the file is missing or decodes; the config is the stored one when it decodes, otherwise empty (Timezone "") |
| `EpicConfig.AfterSetTimeZone` | pkg/epic/fetcher.go:200-213 | an unknown name changes nothing; a known one installs its location and saves the name, whatever the save's outcome |
| `EpicConfig.SetTimeZoneError` | pkg/epic/fetcher.go:200-212 | no error exactly when the name is known and the write succeeds |
| `EpicConfig.ZoneState.constructor` | pkg/epic/fetcher.go:199 | the initial location is UTC; the file is as found on disk |
| `EpicConfig.ZoneState.GetTimeZone` | pkg/epic/fetcher.go:216-218 | returns the location in effect |
| `EpicConfig.ZoneState.LoadConfig` | pkg/epic/fetcher.go:46-57 | returns `LoadResult` of the file, changing nothing; a missing file gives the empty config and no error |
| `EpicConfig.ZoneState.SaveConfig` | pkg/epic/fetcher.go:38-44 | a successful write replaces the whole stored config; a failed open leaves the file unchanged, a failed write leaves it truncated, and a failed close leaves the new config in place; every failure is reported |
| `EpicConfig.ZoneState.SetTimeZone` | pkg/epic/fetcher.go:200-213 | the new state is `AfterSetTimeZone` of the old and the error is `SetTimeZoneError`: location is set before saving |
| `EpicConfig.LoadAfterSave` | pkg/epic/fetcher.go:38-57 | a load after a successful save returns the saved config without error |
| `EpicConfig.UnknownNameChangesNothing` | pkg/epic/fetcher.go:201-204 | an invalid name returns an error and leaves the location and the file unchanged |
| `EpicConfig.FailedSaveKeepsNewLocation` | pkg/epic/fetcher.go:205-210 | a failed save returns an error but the new location stays in effect |
| `EpicConfig.SuccessfulChangePersists` | pkg/epic/fetcher.go:200-213 | after a successful change the file holds the name, and loading it and looking it up gives the location now in effect |
| `EpicConfig.ReportedFailureCanPersist` | pkg/epic/fetcher.go:38-44 | a save whose close fails is reported as a failed change, yet the next load reads the new name without error |
| `EpicConfig.LastChangeWins` | pkg/epic/fetcher.go:207-208 | a successful change yields the same settings whatever came before |
| `EpicSchedule.NextFire` | pkg/epic/fetcher.go:186-191 | now <= next < now + 24 h, and next shows hour:min:00 on the wall clock of the zone read in that iteration |
| `EpicSchedule.NextFireIsEarliest` | pkg/epic/fetcher.go:188-191 | next is the only instant in [now, now + 24 h) showing hour:min, so the earliest one from now on |
| `EpicSchedule.FiresNowAtTheMinute` | pkg/epic/fetcher.go:189 | when now is exactly hour:min:00, next == now: the task fires today, not tomorrow |
| `EpicSchedule.FiresTodayOrTomorrow` | pkg/epic/fetcher.go:188-191 | at or before the target time the fire is on the same local day; after it, on the next local day, never today |
| `EpicSchedule.NextFireAtNextFire` | pkg/epic/fetcher.go:187-192 | recomputing at the fire instant gives that instant again |
| `EpicSchedule.NextFireAfterFiring` | pkg/epic/fetcher.go:185-194 | once the clock is past a fire instant (by at most a day), the next fire is exactly 24 h after it in the same zone: one fire per day |
| `EpicSchedule.SettingsAfterStep` | pkg/epic/fetcher.go:183-196 | each iteration applies its own changes, in order, to the settings the earlier iterations left |
| `EpicSchedule.TwoChangesInOneSleep` | pkg/epic/fetcher.go:200-213 | two changes in one sleep, a saved one and then one whose save cannot open the file, leave the second zone in effect and the first name in the file |
| `EpicSchedule.ApplyChanges` | pkg/epic/fetcher.go:200-213 | the `SetTimeZone` calls of one sleep, made one after the other, leave the settings `AfterChanges` gives |
| `EpicSchedule.FireTimesLength` | pkg/epic/fetcher.go:185-194 | one fire instant per iteration |
| `EpicSchedule.FireTimesAt` | pkg/epic/fetcher.go:185-191 | iteration i waits for `NextFire` of its clock reading in the location left by all the changes of iterations 0..i-1, whatever later iterations do |
| `EpicSchedule.RunAt` | pkg/epic/fetcher.go:183-196 | the loop waits for exactly `FireTimes` of the iterations, reading the location once at the top of each, so a change affects only later computations; the final settings are every change applied in order |
| `Cli.IsCurrentlyFree` | main.go:149-165 | the split-guard copy has the package predicate's truth table |
| `Cli.NormalizeData` | main.go:167-188 | the CLI loop returns the same records as the package normaliser |
| `Cli.InferFormat` | main.go:190-208 | the CLI copy infers the same format as the package |
| `Cli.DefaultFlagSkipsInference` | main.go:190-208 | with `--format` at its default "text" (main.go:34) the result is text even for games.json; only an empty flag infers json from it |
| `Cli.AttemptsFrom` | main.go:44-52 | from attempt i, the calls run up to the first success and stop after the third attempt; every call before the last failed |
| `Cli.Attempts` | main.go:44-52 | between 1 and 3 calls, all but the last failed, and the last failed iff all three attempts failed |
| `Cli.FetchWithRetry` | main.go:41-52 | makes `Attempts` calls, ends with the last call's result, and sleeps 5 s once per failure, the third included |
| `Cli.ThreeFailuresExhaustRetries` | main.go:44-57 | three failures use all attempts and end failed, so `main` gives up |
| `Cli.StopsAtFirstSuccess` | main.go:44-52 | a success at attempt k after k failures ends the loop after k + 1 calls |
| `Cli.Notifications` | main.go:62-71 | no records give exactly one call, titled "No Free Games to claim today!", with an empty message; otherwise one "Free Game Available!" call per record in order |
| `Cli.Undelivered` | main.go:65-70 | the logged failures are at most one per record: none when every call is delivered, every title in order when none is; mixed delivery is characterised by the three lemmas below |
| `Cli.UndeliveredComplete` | main.go:65-70 | the title of every failed call is in the log |
| `Cli.UndeliveredSound` | main.go:65-70 | every logged title is that of a record whose call failed |
| `Cli.UndeliveredMember` | main.go:65-70 | a title is logged exactly when some call for a record with that title failed |
| `Cli.UndeliveredCount` | main.go:65-70 | the log holds one title per failed call, so its length is the number of failed calls |
| `Cli.UndeliveredPrefix` | main.go:62-71 | the log after the first k calls is a prefix of the whole log: failures are logged in call order |
| `Cli.NotifyAll` | main.go:62-71 | sends exactly `Notifications` whatever the delivery results (a failure does not stop the loop) and logs the titles of the undelivered ones |
| `Cli.Render` | main.go:75-101 | a format other than text/json/html reaches the panic; text renders `FormatText` of the records, json and html carry the records to their encoders |
| `Cli.UnknownFormatPanics` | main.go:75-101 | the run panics exactly when an explicit format, lowered, is none of text/json/html; it never falls back to text |
| `Cli.Run` | main.go:41-101 | after three failures nothing is sent or rendered; otherwise notifications are sent for the normalised records and then the inferred format is rendered or the run panics |

## Left out

- HTTP fetching (`FetchGames`, `fetchGames`), JSON decoding of the response, the 15 s client timeout and the User-Agent header: network I/O, modelled only as an oracle of fetch results.
- Toast notifications (`Notify`, `notify`): a foreign OS call, modelled as an oracle of delivery results.
- `WriteFile`, `AppendFile`, `writeFile`, `appendFile`, the choice between stdout, append and overwrite, and the stale error check after writing (main.go:103-114): file I/O after the report is built.
- The JSON encoding of config.json: the file is abstracted to missing, unreadable, undecodable, or holding a config.
- `FormatJSON` and `FormatHTML`: thin wrappers over `encoding/json` and `html/template`. Their reports carry the records they would render.
- The goroutine, `time.Sleep` and the task call in `RunAt`: concurrency and liveness, including the unsynchronised access to `location`. Only the per-iteration next-fire computation and the point where the location is read are modelled.
- `time.Parse` internals, `time.LoadLocation`/tzdata and daylight saving time: foreign library code. Zones are fixed offsets, and the parser and zone database are parameters.
- EpicSchedule.NextFire: requires 0 <= hour < 24 and 0 <= min < 60, because `time.Date`'s normalisation of out-of-range values is not modelled.
- EpicFormat.InferFormat: lowers ASCII letters only, because the Unicode case mapping of `strings.ToLower` is not modelled.
- Warning and error `Printf` logging (pkg/epic/fetcher.go:103, main.go:50, 55, 77-93): I/O side effects.
- The message text of the failed-notification log (main.go:68): only its format string is left out; which titles are logged, and in which order, is modelled (`Cli.Undelivered`).
- systray/main.go: the tray menu, the dialogs and the event loop are UI and concurrency code, and they only call the package functions modelled here.
