# ProtonDrive Linux sync client: the sync-pair core in Dafny

This project models the core of a small desktop client. The client keeps folders on the local disk in step with folders on a ProtonDrive account, by supervising `rclone`. A *sync pair* maps one local folder to one remote folder. It is either one-way (`sync`) or two-way (`bisync`), and it can be started automatically on a timer.

The model has two halves.

- **The main-process engine** (`src/index.js`), modelled as the class `Engine.SyncEngine`. It holds:
  - the pair list;
  - the registry of running `rclone` processes, keyed by `localPath->remotePath`;
  - the active-sync counter;
  - the auto-sync timer.

  Its operations are:
  - starting one pair, including building the argument vector and deciding on the bisync baseline;
  - the per-process callbacks for output chunks, `close` and `error`;
  - cancelling one pair, or all of them;
  - arming the timer and running one tick;
  - the initial auto-start;
  - the two save requests.

  Around the class:
  - `Progress` models the text parser that turns `rclone` output into progress counts;
  - `Args` models the argument vector;
  - `Listing` models the names of the bisync listing files;
  - `Remotes` models the `listremotes` check for the `protondrive` remote.
- **The renderer's list and arithmetic logic** (`src/renderer.js`), modelled as the class `Renderer.RendererState`. The DOM is left out. The class covers:
  - adding, editing and deleting pairs, forcing a resync, and the per-pair and "sync all" buttons;
  - cancelling every run;
  - the capped sync log and its per-pair view;
  - the settings dialog's interval conversion;
  - the remote-folder browser's path arithmetic;
  - the status maps.

  Form values and `confirm` answers are parameters. The requests sent to the main process are returned as `Request` values.

The world outside is passed in as parameters:
- the set of files that exist on disk;
- the home directory;
- the clock (`now`).

A spawned process is a fresh handle. Each callback names the handle whose closure it runs, so a late event from a cancelled or replaced process still acts, exactly as the closures in the source do.

In two places the source behaves in ways a reader might not expect; the model follows the source:
- Stray late events are not ignored. A `close` or `error` from a process that was cancelled still removes whatever is registered under its key, decrements the counter and writes its outcome into the pair. `Engine.SyncEngine.Lockstep` says that the counter matches the registry. It is therefore preserved only while every callback names a registered process.
- A restart does not reset pairs that were stored as running.

In one place the source is evidently wrong, and the window uses the corrected behaviour. Settings saved from the window lose the exclude-filter reference in the source. `Renderer.SettingsFromFormAsWritten` models that save as written, and the Findings table shows its effect. `Renderer.RendererState.SaveSettingsForm` uses the corrected `Renderer.SettingsFromForm`, as the "## Left out" line for it says.

## Model

| member | source | states |
|---|---|---|
| `Pairs.FirstIndex` | src/index.js:476-478 | `findIndex` by paths: -1 exactly when no entry has the paths, else the first entry that has them |
| `Pairs.KeyNotInjective` | src/index.js:466 | for all paths `a`, `b`, `c`: the different pairs (`a->b`, `c`) and (`a`, `b->c`) have the same process key |
| `Pairs.Key` | src/index.js:466 | the process key `${localPath}->${remotePath}`; `Engine.KeyPathsOfKey` and `Pairs.KeyNotInjective` state when it can be split back |
| `Pairs.FirstIndexSameConfig` | src/index.js:476-478 | the lookup depends only on the paths, so lists that agree on configuration give the same index |
| `Text.DigitsValueOfNatToString` | src/index.js:587-589 | `parseInt` of the decimal digits of a number gives the number back; the stats-line lemma `Progress.MatchRendered` uses it |
| `Text.JoinSplit` | src/renderer.js:361 | joining the pieces of a split with the same separator gives the string back |
| `Listing.ReplaceSeparatorsAt` | src/index.js:520-521 | each `/`, `\` and `:` becomes `_`, and every other character stays |
| `Listing.SanitizeClean` | src/index.js:520-521 | a sanitised path holds no separator and does not start with `_`; only underscores were dropped from its front |
| `Listing.SanitizeIdempotent` | src/index.js:520-521 | sanitising twice is sanitising once |
| `Listing.ListingFilesDifferOnlyInSide` | src/index.js:522-524 | the two listing file names are distinct and differ only in the side digit |
| `Listing.SanitizeMergesSeparators` | src/index.js:520-521 | for every path, putting any separator or `_` in place of one of its separators gives the same sanitised path, so both paths share listing files |
| `Listing.Sanitize` | src/index.js:520-521 | its properties are `Listing.SanitizeClean`, `Listing.SanitizeIdempotent` and `Listing.SanitizeMergesSeparators` |
| `Listing.ListingFile` | src/index.js:519-524 | the file of one side, `<home>/.cache/rclone/bisync/<local>..protondrive_<remote>.path<side>.lst`; `Listing.ListingFilesDifferOnlyInSide` relates the two sides |
| `Args.PushArgs` | src/index.js:499-549 | the pushed vector is the head, the common flags, the bisync flags for a two-way pair, and `--resync` exactly when a listing file is missing or the pair asks for it |
| `Args.BuildArgs` | src/index.js:498-563 | the vector has the shape `IsArgv`: the filter pair is at positions 3-4 exactly when the filter is enabled, named and present; it ends in `--resync` exactly when a resync was decided; a one-way vector has 13 or 15 elements |
| `Args.NumberIsNotResync` | src/index.js:507-508 | a rendered number is never the `--resync` flag |
| `Args.LastOfUnfiltered` | src/index.js:499-549 | before the filter splice, the vector ends in `--resync` exactly when that flag was pushed |
| `Args.ListingsMissing` | src/index.js:531 | either listing file is absent from the set of existing files; used by `Args.PushArgs` and `Args.IsArgv` |
| `Args.NeedsResync` | src/index.js:512-532 | a two-way pair whose listings are missing, or that asks for a one-time resync; `Args.PushArgs` pushes `--resync` exactly then |
| `Args.UsesFilter` | src/index.js:552-555 | the filter is enabled, named and present; `Args.BuildArgs` splices it in exactly then |
| `Args.IsArgv` | src/index.js:498-563 | the specification of the vector that `Args.BuildArgs` and `Engine.SyncEngine.SyncSinglePair` promise: head, optional filter pair at 3-4, flags, bisync options, `--resync` |
| `Args.Command` | src/index.js:498 | `bisync` for a two-way pair, `sync` otherwise |
| `Args.CommonFlags` | src/index.js:503-508 | the verbosity, stats and concurrency flags every run carries, with the counts in decimal |
| `Progress.ParseChunk` | src/index.js:573-598 | the handler's loop over the lines of a chunk computes `Parse` |
| `Progress.LeadNumber` | src/index.js:585-589 | `\s*(\d+)` and `parseInt` of the digits; `Progress.LeadNumberRendered` reads a rendered number back |
| `Progress.MatchAfterLabel` | src/index.js:585 | the pattern after `Transferred:`: whitespace, then the three stages below |
| `Progress.MatchAfterFirst` | src/index.js:585 | `\s*\/\s*(\d+)` after the first number, then the last stage |
| `Progress.MatchAfterSecond` | src/index.js:585 | `,\s*(\d+)%` after the second number |
| `Progress.MatchTransferred` | src/index.js:585 | the leftmost match of the pattern; `Progress.MatchHasLabel` and `Progress.MatchRendered` state what it finds |
| `Progress.MatchRendered` | src/index.js:585-589 | a stats line `Transferred: a / b, c%` with any whitespace where the pattern allows it, and anything after it, is matched as exactly (`a`, `b`, `c`) |
| `Progress.LeadNumberRendered` | src/index.js:585-589 | whitespace, the decimal digits of `n` and a non-digit are read as `n`, with the rest left over |
| `Progress.Step` | src/index.js:584-597 | one pass of the loop body; `Progress.FoldFields` and the `Last…` lemmas state what a sequence of passes does |
| `Progress.CountsMessage` | src/index.js:590 | the message a stats line sets, `Transferred: a/b files (c%)` |
| `Progress.Fold` | src/index.js:582-598 | the loop over the lines; `Progress.ParseChunk` is proved to compute it, and `Progress.FoldFields` characterises every field of its result |
| `Progress.Parse` | src/index.js:573-598 | the snapshot of one chunk, specified by the `Progress.Parse…` lemmas below |
| `Progress.MatchHasLabel` | src/index.js:584-586 | a line that matches the counts pattern contains `Transferred:`, so it takes the first branch |
| `Progress.FoldFields` | src/index.js:582-598 | the loop gives the counts and percentage of the last matching line (else the carried counts and 0), the last file line (else the carried file), and the last message |
| `Progress.LineMessageNotEmpty` | src/index.js:590-596 | a message set by a line is never empty |
| `Progress.LastMessageNotEmpty` | src/index.js:590-596 | the last message set in a chunk is never empty |
| `Progress.LastCountsAt` | src/index.js:584-591 | a matching line with no matching line after it gives the counts |
| `Progress.LastCountsNone` | src/index.js:584-591 | there are no counts exactly when no line matches |
| `Progress.LastFileAt` | src/index.js:592-594 | a file line with no file line after it gives the current file |
| `Progress.LastFileNone` | src/index.js:592-594 | there is no file exactly when no line is a file line |
| `Progress.LastFileIsALine` | src/index.js:592-594 | the current file found is the trimmed text of one of the chunk's file lines |
| `Progress.LastMessageAt` | src/index.js:584-597 | the message is that of the last line that sets one |
| `Progress.LastMessageNone` | src/index.js:584-597 | there is no message exactly when no line sets one |
| `Progress.ParseUsesLastMatch` | src/index.js:584-591 | the percentage and both file counts come from the chunk's last matching line |
| `Progress.ParseWithoutMatch` | src/index.js:568-591 | without a matching line, the percentage is 0 and the file counts carry over from earlier chunks |
| `Progress.ParseUsesLastFileLine` | src/index.js:592-594 | the current file is the trimmed last file line |
| `Progress.ParseWithoutFileLine` | src/index.js:570-594 | without a file line, the current file carries over |
| `Progress.ParseCurrentFileOrigin` | src/index.js:584-594 | the current file is either the carried one or the trimmed text of a line with a file label and no `Transferred:` |
| `Progress.ParseUsesLastMessage` | src/index.js:590-597 | the event message is that of the last line that sets one |
| `Progress.ParseMessageFallback` | src/index.js:621 | when no line sets a message, the trimmed chunk is sent |
| `Progress.ParseIdempotent` | src/index.js:568-598 | feeding the same chunk again, with the state it carried, gives the same snapshot |
| `Remotes.NamesMember` | src/index.js:78 | a name is listed exactly when some line, trimmed and stripped of its first colon, is that name |
| `Remotes.HasProtonDriveIff` | src/index.js:67-94 | the remote counts as configured exactly when `listremotes` exits with 0 and some line names `protondrive`; a failed exit or a launch error means not configured |
| `Remotes.ListedLineRecognised` | src/index.js:76-82 | a line `protondrive:` framed by whitespace and followed by a line feed is recognised anywhere after the first line |
| `Remotes.FirstLineRecognised` | src/index.js:76-82 | the same line is recognised as the first line of the output |
| `Remotes.RemoveFirstColonAt` | src/index.js:78 | `replace(':', '')` removes the first colon and keeps what stands before it |
| `Remotes.RemoveFirstColon` | src/index.js:78 | `replace(':', '')`; `Remotes.RemoveFirstColonAt` states what it removes |
| `Remotes.RemoteName` | src/index.js:78 | a line trimmed and stripped of its first colon; `Remotes.ListedLineName` states it for a whitespace-framed name |
| `Remotes.Names` | src/index.js:76-79 | the trimmed, colon-stripped, non-blank names of the lines; `Remotes.NamesMember` characterises membership |
| `Remotes.Remotes` | src/index.js:75-79 | the names of the lines of the output |
| `Remotes.HasProtonDrive` | src/index.js:67-94 | whether the check resolves `true`; `Remotes.HasProtonDriveIff` states exactly when |
| `Engine.Decrement` | src/index.js:634 | `Math.max(0, n - 1)`: one less, but never below 0 |
| `Engine.Begin` | src/index.js:479-485 | a start marks the pair as syncing: the start time is set, the progress fields are cleared, and the one-time flag is cleared only when asked; no other field changes |
| `Engine.StartOne` | src/index.js:476-485 | starting changes no configuration field of the list |
| `Engine.Progressed` | src/index.js:604-608 | one chunk writes the percentage, the file counts and the current file, and nothing else |
| `Engine.Closed` | src/index.js:642-658 | success exactly on exit code 0, which sets `lastSync` and 100%; otherwise an error with the exit message and 0%; the file fields are cleared and nothing else changes |
| `Engine.Errored` | src/index.js:680-684 | an `error` event sets the status to error and records the message; the counts are kept |
| `Engine.ExitMessage` | src/index.js:650 | `Process exited with code ${code}`, with `null` for a process ended by a signal; `Engine.Closed` records it |
| `Engine.UpdateFirstProgressed` | src/index.js:601-608 | the first entry with the paths takes the chunk's fields (`Engine.Progressed`); no entry, no change |
| `Engine.UpdateFirstClosed` | src/index.js:638-659 | the first entry with the paths records the exit (`Engine.Closed`); no entry, no change |
| `Engine.UpdateFirstErrored` | src/index.js:677-684 | the first entry with the paths records the error (`Engine.Errored`); no entry, no change |
| `Engine.UpdateFirstCancelled` | src/index.js:373-379 | the first entry with the paths is reset (`Engine.Cancelled`); no entry, no change |
| `Engine.Cancelled` | src/index.js:377-379 | a cancel sets the status to idle and clears the progress and the file; nothing else changes |
| `Engine.StartStepEffect` | src/index.js:465-571 | one start registers the pair's key, counts one more process exactly when the key was new, and keeps the configuration |
| `Engine.StartAllEffect` | src/index.js:702-706 | starting a batch registers exactly its keys, starts one process per key that was not registered, and keeps the configuration |
| `Engine.StartAtEffect` | src/index.js:836-850 | starting the entries at a list of indices registers exactly their keys and starts one process per new key |
| `Engine.StartStep` | src/index.js:465-471 | one `syncSinglePair` call on the launch state; `Engine.StartStepEffect` states its effect |
| `Engine.StartAll` | src/index.js:702-706 | the loop over a batch of pair values; `Engine.StartAllEffect` states its effect |
| `Engine.StartAt` | src/index.js:847-849 | the loop over entries of the live list; `Engine.StartAtEffect` states its effect |
| `Engine.TickEffect` | src/index.js:761-768 | a tick starts exactly one process per key of its selection |
| `Engine.TickKeysNew` | src/index.js:761-764 | the keys a tick starts were all unregistered |
| `Engine.AutoSyncIndices` | src/index.js:740 | `filter(pair => pair.autoSync)` as indices, each in range; `Engine.AutoSyncIndicesExact` states which |
| `Engine.TickReady` | src/index.js:761-764 | the tick's filter over the captured selection; every index it keeps was selected; `Engine.TickReadyExact` states which |
| `Engine.AutoSyncIndicesExact` | src/index.js:740 | the selection is exactly the `autoSync` entries, in list order |
| `Engine.AutoSyncIndicesSameConfig` | src/index.js:740 | the selection depends only on configuration, which no engine transition writes |
| `Engine.AutoSyncKept` | src/index.js:740 | rewriting an entry without touching `autoSync` keeps the selection |
| `Engine.TickReadyExact` | src/index.js:761-764 | a tick picks an index exactly when its pair has `autoSync`, its key is unregistered and its status is not syncing |
| `Engine.TickReadyMember` | src/index.js:761-764 | the same test holds relative to any captured selection |
| `Engine.ArrowAt` | src/index.js:716 | the first occurrence of `->`, or -1 when there is none |
| `Engine.KeyPathsOfKey` | src/index.js:716 | splitting a key built from arrow-free paths gives the paths back |
| `Engine.ArrowAtKey` | src/index.js:716 | in a key whose local path has no `->`, the first arrow is the one the key adds, and the pieces around it are the two paths |
| `Engine.KeyPathsLossy` | src/index.js:716-721 | for every local path `a->b` (with arrow-free `a` and `b`) and every remote path `c`, splitting the key recovers (`a`, `b`), which is not the pair |
| `Engine.KeyPaths` | src/index.js:716 | the first two pieces of `split('->')`; `Engine.KeyPathsOfKey` and `Engine.KeyPathsLossy` state what they are |
| `Engine.CancelTarget` | src/index.js:716-722 | the entry `cancelAllSyncs` resets for one key: -1 or an index in range |
| `Engine.IdleTargets` | src/index.js:711-723 | the list with every targeted entry idle; same length and configuration as before |
| `Engine.IdleTargetsStep` | src/index.js:711-723 | handling one more key resets the first entry with that key's recovered paths |
| `Engine.DropKey` | src/index.js:633-634 | dropping a registered key keeps the clamped counter equal to the number of keys |
| `Engine.AddKey` | src/index.js:566 | registering a new key adds one to the number of keys |
| `Engine.BeginClear` | src/index.js:544-545 | clearing the flag after the start is the start with the flag cleared |
| `Engine.StartOneSteps` | src/index.js:476-546 | the start as the source performs it: the fields first, then the flag on the `--resync` path |
| `Engine.RegisteredSpawn` | src/index.js:565-566 | a new process gets the next handle and is registered under its key |
| `Engine.RegisteredDrop` | src/index.js:633 | dropping a key keeps every other registration valid |
| `Engine.RegisteredCarry` | src/index.js:568-571 | updating a process's carried parse state keeps its key |
| `Engine.SyncEngine.constructor` | src/index.js:117-138 | the loaded pairs and settings, with the exclude file pointed at the application's filter file; no process, no timer |
| `Engine.SyncEngine.SyncSinglePair` | src/index.js:465-571 | nothing happens when the key is registered; otherwise the first entry with the paths begins, the counter rises by one, a fresh process is registered, and the argument vector has the shape `IsArgv` |
| `Engine.SyncEngine.Start` | src/index.js:704-705 | one `syncSinglePair` call inside a loop: the launch state moves by `Engine.StartStep` and the counter stays in step with the registry; every earlier closure and registration is kept unchanged, and handles only grow (`Engine.SyncEngine.Keeps`) |
| `Engine.SyncEngine.PrepareRun` | src/index.js:498-563 | builds the vector and clears entry `i`'s one-time flag exactly on the `--resync` path of a pair that asked for it |
| `Engine.SyncEngine.SetEntry` | src/index.js:543-544 | one entry is replaced by a record with the same `autoSync`, and the timer's selection stays valid |
| `Engine.SyncEngine.Spawn` | src/index.js:565-566 | a fresh handle with an empty parse state, registered under the key |
| `Engine.SyncEngine.Release` | src/index.js:633-634 | the key is dropped and the counter decremented, clamped at 0 |
| `Engine.SyncEngine.OnOutput` | src/index.js:573-627 | the chunk is parsed from the process's carried state and written to the first entry with its paths; the new state is kept and the event returned |
| `Engine.SyncEngine.OnClose` | src/index.js:632-668 | the key is dropped and the counter decremented without any check; the first entry with the paths records the exit |
| `Engine.SyncEngine.OnError` | src/index.js:670-699 | as `close`, but the entry records the error message and keeps its counts |
| `Engine.SyncEngine.CancelSyncPair` | src/index.js:361-389 | on a registered key: the key is dropped, the counter decremented and the first entry reset to idle; otherwise nothing |
| `Engine.SyncEngine.CancelAllSyncs` | src/index.js:708-729 | every key's recovered entry becomes idle and nothing else in the list changes; the registry and the counter are cleared |
| `Engine.SyncEngine.IdleAll` | src/index.js:711-723 | the loop over the registered keys, in any order, gives `IdleTargets` |
| `Engine.SyncEngine.IdleOne` | src/index.js:716-722 | the loop body: the key's recovered entry becomes idle, giving `Engine.IdleTargets` for one more key |
| `Engine.SyncEngine.SetupAutoSync` | src/index.js:732-751 | the timer is armed exactly when some pair has `autoSync`, with a period of the interval in milliseconds and the current `autoSync` selection |
| `Engine.SyncEngine.AutoSyncTick` | src/index.js:751-772 | nothing changes while any sync is counted, closures and handles included; otherwise the ready entries are started in order, and the counter becomes the number of new keys; every earlier closure and registration is kept unchanged, and handles only grow (`Engine.SyncEngine.Keeps`) |
| `Engine.SyncEngine.StartInitialAutoSyncs` | src/index.js:836-850 | every `autoSync` entry is started in list order; every earlier closure and registration is kept unchanged, and handles only grow (`Engine.SyncEngine.Keeps`) |
| `Engine.SyncEngine.StartIndices` | src/index.js:847-849 | the loop of starts over live entries gives `StartAt`; every earlier closure and registration is kept unchanged, and handles only grow (`Engine.SyncEngine.Keeps`) |
| `Engine.SyncEngine.SyncAllPairs` | src/index.js:702-706 | a batch registers exactly its keys and counts one process per new key; every earlier closure and registration is kept unchanged, and handles only grow (`Engine.SyncEngine.Keeps`) |
| `Engine.SyncEngine.ReplaceSyncPairs` | src/index.js:296-301 | the list is replaced and the timer set up again |
| `Engine.SyncEngine.ReplaceSettings` | src/index.js:309-313 | the settings are replaced wholesale and the timer set up again |
| `Renderer.StatusClass` | src/renderer.js:323-331 | a known status gets `status-` plus itself; any other status gets `status-idle` |
| `Renderer.StatusText` | src/renderer.js:333-341 | the text of each known status, else 'Unknown status'; `Renderer.StatusMapsAgree` relates it to the class map |
| `Renderer.StatusMapsAgree` | src/renderer.js:323-341 | the text is 'Unknown status' exactly for unknown statuses; the four known texts are distinct |
| `Renderer.DisplayInterval` | src/renderer.js:393-402 | the interval is shown in hours exactly when it is a whole number of hours; value times unit is the stored interval (0 reads as 60) |
| `Renderer.StoredInterval` | src/renderer.js:395 | `syncInterval \|\| 60`; `Renderer.DisplayInterval` states its effect |
| `Renderer.SaveInterval` | src/renderer.js:520-522 | value times unit; `Renderer.IntervalRedisplay` states the round trip through the display |
| `Renderer.PopulateSettingsForm` | src/renderer.js:393-409 | the form shown for the settings; `Renderer.SaveUnchangedKeepsSettings` states the round trip through a save |
| `Renderer.IntervalRedisplay` | src/renderer.js:520-522 | a positive saved amount is shown again as entered, except that whole hours entered in minutes come back in hours |
| `Renderer.SettingsFromFormAsWritten` | src/renderer.js:524-532 | the window's settings object has no filter file reference |
| `Renderer.SettingsFromForm` | src/renderer.js:524-532 | the corrected object keeps the current filter file reference |
| `Renderer.SaveUnchangedDropsFilter` | src/renderer.js:524-532 | as written, saving the untouched dialog turns a filter in use off |
| `Renderer.SaveUnchangedKeepsSettings` | src/renderer.js:393-413 | corrected, saving the untouched dialog changes only zero fields to their defaults, and filtering is unchanged |
| `Renderer.NewPair` | src/renderer.js:424-447 | a new record has the trimmed paths and the form's flags; it is idle, never synced and has no progress |
| `Renderer.FormOf` | src/renderer.js:356-360 | the form filled from an entry, syncType defaulting to `sync`; `Renderer.EditUntouched` states the round trip |
| `Renderer.Edited` | src/renderer.js:449-462 | the record that replaces an edited entry; `Renderer.EditedFields` states every field |
| `Renderer.EditedFields` | src/renderer.js:449-462 | an edit takes the form's configuration and keeps `lastSync`; a running entry keeps its progress, any other becomes idle; the start time and error are dropped |
| `Renderer.EditUntouched` | src/renderer.js:348-462 | opening an entry and saving it untouched keeps its configuration and history |
| `Renderer.SpliceOneRemoves` | src/renderer.js:478 | `splice(i, 1)` in range removes exactly entry `i` and keeps the order; -1 removes the last entry; past the end nothing is removed |
| `Renderer.SpliceOne` | src/renderer.js:478 | `splice(index, 1)` on a list value; `Renderer.SpliceOneRemoves` states what it removes |
| `Renderer.ReadyIndicesExact` | src/renderer.js:500 | the selection is exactly the entries not marked syncing, in order |
| `Renderer.ReadyIndices` | src/renderer.js:500 | `filter(pair => pair.status !== 'syncing')` as indices, each in range; `Renderer.ReadyIndicesExact` states which |
| `Renderer.MarkAtEntries` | src/renderer.js:506 | marking sets the status of exactly the listed entries |
| `Renderer.MarkAt` | src/renderer.js:506 | the `forEach` that marks the selected entries; the list keeps its length, and `Renderer.MarkAtEntries` states which entries change |
| `Renderer.MarkReadyAll` | src/renderer.js:500-506 | after marking the ready entries, every entry is syncing and nothing else changed |
| `Renderer.KeepLast` | src/renderer.js:211-213 | the log keeps its latest 1000 entries, at most |
| `Renderer.KeepLastAppend` | src/renderer.js:203-213 | trimming before one append and again after is trimming once |
| `Renderer.LogAfterKeepsLatest` | src/renderer.js:201-214 | after any sequence of events, the log is the latest 1000 of everything seen, in order |
| `Renderer.LogAfter` | src/renderer.js:200-214 | the log after a sequence of `syncProgress` events; `Renderer.LogAfterKeepsLatest` states it |
| `Renderer.LogFor` | src/renderer.js:644-646 | every shown entry has the pair's paths |
| `Renderer.LogForMember` | src/renderer.js:644-646 | an entry is shown exactly when it is in the log with the pair's paths |
| `Renderer.LogForAppend` | src/renderer.js:644-646 | the filter keeps the log's order |
| `Renderer.ParentDirSplit` | src/renderer.js:361 | a top-level folder has the root as parent; otherwise the dir is its parent, a `/` and its last segment |
| `Renderer.ParentOfChild` | src/renderer.js:554-569 | going into a folder and back returns to where the browser was |
| `Renderer.ParentDir` | src/renderer.js:361 | `split('/').slice(0, -1).join('/')`; `Renderer.ParentDirSplit` states it |
| `Renderer.ChildPath` | src/renderer.js:569 | the path a click on a folder opens; `Renderer.ParentOfChild` states the way back |
| `Renderer.TokenStart` | src/renderer.js:564-565 | the last token starts after the last whitespace, and holds none |
| `Renderer.FolderNamesMember` | src/renderer.js:562-566 | a name is listed exactly when some line's last whitespace-separated token is that name |
| `Renderer.FolderNameLastWord` | src/renderer.js:564-565 | the name shown for a line is its last word, so a folder whose name has a space is shown by its last word |
| `Renderer.FolderName` | src/renderer.js:562-565 | the last whitespace-separated token of a trimmed line; `Renderer.FolderNameLastWord` states it for a name with spaces |
| `Renderer.FolderNames` | src/renderer.js:561-566 | the names of the lines of a trimmed listing, all non-empty; `Renderer.FolderNamesMember` characterises membership |
| `Renderer.FolderNamesOf` | src/renderer.js:562-566 | the names of a list of lines; every name is non-empty, as the `filter` guarantees |
| `Renderer.RendererState.constructor` | src/renderer.js:2-15 | the initial state: no pairs, root folder, not editing, the default settings, an empty log |
| `Renderer.RendererState.SyncPairsLoaded` | src/renderer.js:161-164 | the loaded list becomes the window's |
| `Renderer.RendererState.SettingsLoaded` | src/renderer.js:166-169 | the loaded settings become the window's |
| `Renderer.RendererState.OpenSyncPairModal` | src/renderer.js:348-375 | the modal is editing exactly for an index of at least 0; the form is filled from the entry or emptied; the browser moves to the parent of the entry's remote path, or the root, and requests its listing |
| `Renderer.RendererState.CloseSyncPairModal` | src/renderer.js:377-381 | the modal stops editing |
| `Renderer.RendererState.BrowseTo` | src/renderer.js:542-547 | requests the listing of a dir and moves there |
| `Renderer.RendererState.SelectCurrentRemoteFolder` | src/renderer.js:419-421 | the remote field takes the browser's folder |
| `Renderer.RendererState.SaveSyncPair` | src/renderer.js:423-470 | nothing happens when a trimmed path is empty; otherwise the edited entry is replaced or a new one appended, the list is saved and the modal closed |
| `Renderer.RendererState.DeleteSyncPair` | src/renderer.js:476-482 | when confirmed, `splice(index, 1)` and a save; otherwise nothing |
| `Renderer.RendererState.ForceResyncPair` | src/renderer.js:675-682 | when confirmed, the entry asks for a one-time resync and the list is saved |
| `Renderer.RendererState.SyncButton` | src/renderer.js:484-497 | cancels exactly a running pair; starts any other with the window's settings |
| `Renderer.RendererState.SyncAllPairs` | src/renderer.js:499-511 | the entries not syncing become syncing and are sent, in order, with the settings; when there is none, nothing happens |
| `Renderer.RendererState.CancelSync` | src/renderer.js:621-632 | asks to cancel all runs; every syncing entry becomes idle, others are unchanged, and none is left syncing |
| `Renderer.RendererState.OnSyncProgress` | src/renderer.js:201-214 | the log becomes the latest 1000 entries of the log plus the event |
| `Renderer.RendererState.ShowSyncLog` | src/renderer.js:639-655 | shows exactly the log entries that have the pair's paths, in order |
| `Renderer.RendererState.ClearSyncLog` | src/renderer.js:661-664 | the log is empty |
| `Renderer.RendererState.SaveSettingsForm` | src/renderer.js:518-539 | the window's settings become those of the form (corrected: the filter reference is kept); the filter text and then the settings are sent |

## Left out

- Process spawning, signals, stdout/stderr plumbing, file reading and writing, JSON persistence, and the IPC transport. Existence checks are a `set` of existing paths; a spawn is a fresh handle; requests to the main process are returned `Request` values.
- Timers and clocks. The timer is an armed flag with a period and a captured selection; a tick is a method call; `Date.now()` is a parameter.
- The tray menu, the windows, window events, `updateTrayStatus`, notifications to the window (`syncPairUpdated`, `syncError`), and the `getdirs` listing process. Only `getdirs`'s request and the parsing of its output are modelled.
- `setupProtonDriveRemote` and the setup dialog: interaction with `rclone config`, with no list or arithmetic logic.
- The legacy `syncdirs` handler (src/index.js:450-462): it appends a pair built from `path1`/`path2`, without `syncType` or `forceResync`, then re-enters the `saveSyncPairs` handler (modelled as `Engine.SyncEngine.ReplaceSyncPairs`) with the whole list. It is a backward-compatibility entry point that the window never uses, and the model has no partial pair record to give it.
- `preload.js`: the IPC bridge, not modelled.
- The DOM and its rendering. In particular, `syncAllPairs` in the window calls `showProgressModal`, which writes to an element that is not among the cached ones. The model assumes the call returns and the request is sent.
- Unicode whitespace. `trim` and `\s` are modelled on ASCII whitespace (space, tab to carriage return); strings have no normalisation.
- JavaScript number semantics. Integers are unbounded; `parseInt` of a malformed field (NaN) is not modelled, so the interval, transfer and checker fields are integers.
- `path.join` is concatenation with `/`, without normalisation.
- Prototype keys such as `constructor` as status strings. The status maps treat every unknown string alike.
- Renderer.RendererState.SaveSettingsForm: builds the window's new settings with the corrected `SettingsFromForm`, which keeps the filter file reference. So later `syncPair` and `syncAll` requests (src/renderer.js:495, 510) carry it. The source drops the reference from the window's own settings (src/renderer.js:524-532), and that behaviour is `SettingsFromFormAsWritten` (see Findings).
- Renderer.RendererState.SettingsLoaded: the window merges the loaded settings into its own (`{...current, ...data}`); the model replaces them. In the model every settings value has every field, and there a merge is a replacement. In the source the main process sends every key the window holds: at start-up it holds the defaults and the file's keys (src/index.js:25-46, 117-136), and after a save it holds exactly the keys the window sent (src/index.js:309-313). So the merge and the replacement agree there too.
- Renderer.RendererState.OpenSyncPairModal: requires that an editing index is within the list. The source would throw on a missing entry.
- Renderer.RendererState.SaveSyncPair: requires that an editing index is within the list, for the same reason.
- Renderer.RendererState.ForceResyncPair: requires that a confirmed index is within the list, for the same reason.
- Renderer.RendererState.SyncButton: requires that the index is within the list. The source would throw on a missing pair (src/renderer.js:484-486).
- Renderer.RendererState.ShowSyncLog: requires that the index is within the list, for the same reason (src/renderer.js:639-641).
- Engine.SyncEngine.Lockstep: the counter equals the number of registered keys only while callbacks name registered processes. A stray late `close` or `error` breaks it, as in the source.

## Findings

| source | as written | input that shows it | evidently intended | confidence | as-written member | corrected member |
|---|---|---|---|---|---|---|
| src/renderer.js:524-532 | The settings dialog builds a new settings object without `excludeFile`. The main process replaces its settings with it (src/index.js:309-313), and later runs test `settings.excludeFile` (src/index.js:552). So after any save, no run uses the filter file until the application restarts (src/index.js:136). | Settings with `useExcludeFile` true and an existing `excludeFile`, with the dialog saved untouched. | Saving the dialog keeps the filter file reference, so a filter in use stays in use. | not executed | `Renderer.SaveUnchangedDropsFilter` (on `Renderer.SettingsFromFormAsWritten`) | `Renderer.SaveUnchangedKeepsSettings` (on `Renderer.SettingsFromForm`, used by `Renderer.RendererState.SaveSettingsForm`) |
