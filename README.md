# livereload, modelled in Dafny

livereload is a development-loop supervisor written in Go. It watches a
source tree and debounces file events into a one-slot restart channel. On
each signal it kills and waits on the running process, runs the build
command, starts the run command and waits for a health check. Then it tells
every connected browser to reload through a websocket hub.

This project is a Dafny model of that orchestration core, with proofs of
what the code promises:

- `gostrings.dfy`: the Go library helpers the core relies on. These are
  `strings.Contains`, `strings.Split`, `strings.TrimSpace` (Unicode white
  space) and `filepath.Base`.
- `events.dfy`: the fsnotify operation bits and the event filter, which
  drops ignored base names and operations other than Write, Create or
  Remove.
- `debounce.dfy`: the listener goroutine of `Run`. It covers the
  capacity-one restart channel (`RestartSlot`), a pure one-input step
  function with its burst and coalescing lemmas, and the `Debouncer` class
  that drives the slot.
- `health.dfy`: `waitForHealth`. The HTTP client and the clock are
  replaced by the list of poll responses that arrive before the deadline.
- `supervisor.dfy`: one iteration of the restart loop. It covers the kill
  and wait error filters, build, start, the health gate and the broadcast.
  It is a pure specification (`CycleEffect`) with its ordering lemmas, plus
  a `Supervisor` class that keeps `currentProcess` and a ghost trace of
  actions.
- `hub.dfy`: `ReloadHub`'s client set and the register, unregister and
  broadcast arms of its loop.
- `watch.dfy`: `AddRecursiveWatch`, which calls `filepath.Walk` over an
  abstract file tree. The walk is proved against a reference traversal: it
  watches exactly the readable, non-ignored directories up to the first
  error, and returns that error.
- `config.dfy`: the configuration merge in `main`. The file values and the
  flags are merged, the list flags are split, defaults fill empty lists, a
  run command is required, and the ignore map is built.
- `livereload.dfy`: the `Livereload` object with `NewLivereload`'s
  defaults. The two goroutines of `Run` are flattened into one listener
  turn and one restart turn, which share the restart slot.

Durations are integers in nanoseconds. Goroutines and channels are replaced
by method calls in an order the environment chooses. The environment's
answers come from oracles: each Kill, Wait, Build and Start result, each
health response, each failing `watcher.Add` and each websocket write.

Each restart kills and waits on the old process before it builds
(internal/livereload/livereload.go:198-219); `Supervisor.StopBeforeLaunch`
states that order.

## Model

| member | source | states |
|---|---|---|
| GoStrings.Contains | internal/livereload/livereload.go:201 | The result is true exactly when the second string occurs at some index of the first. |
| GoStrings.ContainsTransitive | internal/livereload/livereload.go:201 | A string that contains `t` also contains everything `t` contains. |
| GoStrings.Split | main.go:53 | There is at least one piece, no piece holds the separator, and joining the pieces with the separator gives back the input. |
| GoStrings.SplitJoin | main.go:53-56 | Splitting a join of separator-free pieces gives back exactly those pieces. |
| GoStrings.SplitPiece | main.go:53 | Splitting `p + sep + t`, with `p` separator-free, gives `p` followed by the pieces of `t`. |
| GoStrings.Join | main.go:53 | The partner of `Split` (no contract of its own): `Split`'s contract says joining its pieces gives back the input, and `SplitJoin` says splitting a join of separator-free pieces gives back the pieces. |
| GoStrings.TrimSpace | main.go:73 | The reference definition of `strings.TrimSpace` (no contract of its own): `TrimSpaceTrims` says the result is a slice of the input with no white space at either end, `TrimSpaceIdempotent` that trimming twice changes nothing, and `PaddedTrim` that white-space padding around a name is removed. |
| GoStrings.TrimLeftIsSuffix | main.go:73 | Left trimming leaves a suffix, cuts off only white space, and the result does not start with white space. |
| GoStrings.TrimRightIsPrefix | main.go:73 | Right trimming leaves a prefix, cuts off only white space, and the result does not end with white space. |
| GoStrings.TrimSpaceTrims | main.go:73 | `TrimSpace` returns a contiguous slice of its input with only white space around it, and the slice neither starts nor ends with white space. |
| GoStrings.TrimSpaceIdempotent | internal/livereload/livereload.go:247 | Trimming twice is the same as trimming once. |
| GoStrings.TrimSpaceUnchanged | internal/livereload/livereload.go:247 | A string with no white space at either end is left as it is. |
| GoStrings.TrimLeftSkipsSpace | main.go:73 | Leading white space makes no difference to left trimming. |
| GoStrings.TrimRightSkipsSpace | main.go:73 | Trailing white space makes no difference to right trimming. |
| GoStrings.PaddedTrim | main.go:73 | A word padded with white space on both sides trims back to the word. |
| GoStrings.StripTrailingSlashesIsPrefix | internal/livereload/livereload.go:168 | Stripping trailing slashes leaves a prefix that does not end in '/', and only slashes are removed. |
| GoStrings.LastElementIsSuffix | internal/livereload/livereload.go:168 | The last element of a path is a suffix with no '/', preceded by a '/' or by nothing. |
| GoStrings.Base | internal/livereload/livereload.go:168 | `filepath.Base` is never empty, is "/" or holds no '/', and is "." for the empty path. |
| GoStrings.BaseOfChild | internal/livereload/livereload.go:168 | The base name of `dir/name` is `name`. |
| GoStrings.LastElementOfChild | internal/livereload/livereload.go:168 | The last element of `dir/name` is `name`. |
| GoStrings.BaseIgnoresTrailingSlash | internal/livereload/livereload.go:168 | A trailing slash does not change the base name. |
| Events.IsChange | internal/livereload/livereload.go:171 | An operation is a change exactly when its mask with Write, Create and Remove is non-zero, which is what the three bit tests amount to. |
| Events.IsChangeMask | internal/livereload/livereload.go:171 | An operation counts as a change exactly when it has the Write, Create or Remove bit. Chmod, Rename and Chmod with Rename do not count, and adding Write always makes it count. |
| Events.Qualifies | internal/livereload/livereload.go:168-171 | An event re-arms the timer exactly when the base name of its path is not ignored and its operation has a Write, Create or Remove bit. |
| Events.IgnoredByBaseName | internal/livereload/livereload.go:168-170 | An event on `dir/name` whose name is ignored never qualifies, whatever its operation. |
| Events.WriteQualifies | internal/livereload/livereload.go:168-171 | A change event on a file whose name is not ignored qualifies. |
| Debounce.RestartSlot.constructor | internal/livereload/livereload.go:155 | The restart channel starts empty. |
| Debounce.RestartSlot.TrySend | internal/livereload/livereload.go:177-180 | The non-blocking send leaves the slot full, and it is accepted exactly when the slot was empty. |
| Debounce.RestartSlot.Receive | internal/livereload/livereload.go:197 | A receive empties the slot, and it takes a signal exactly when one was pending. |
| Debounce.SendManyCoalesces | internal/livereload/livereload.go:177-180 | Any number of sends with no receive between them leave one pending signal, and at most one send is taken: one when the slot was empty, none when it was full. |
| Debounce.Step | internal/livereload/livereload.go:163-190 | A closed source stops the listener. A qualifying event seen while listening re-arms the timer for `now + debounce`. The timer fires exactly on a tick at or after its deadline, and firing disarms it. Nothing else changes the timer. |
| Debounce.RunAll | internal/livereload/livereload.go:160-190 | The listener loop over a whole input sequence (no contract of its own): `RunAllAppend` says running two sequences one after the other is running their concatenation, `BurstDoesNotFire` says a burst never fires and leaves the timer armed for the debounce time after its last event, and `BurstFiresOnce` says the burst followed by a late tick fires exactly once. |
| Debounce.RunAllAppend | internal/livereload/livereload.go:160-190 | Running two input sequences one after the other is running their concatenation, and the fires add up. |
| Debounce.BurstDoesNotFire | internal/livereload/livereload.go:172-181 | During a burst the timer never fires, and the burst ends with the timer armed for `debounce` after its last qualifying event. |
| Debounce.QuietKeepsTimer | internal/livereload/livereload.go:172-181 | Inputs without a qualifying event, and without a tick reaching the deadline, leave an armed timer unchanged and fire nothing. |
| Debounce.DisarmedStaysSilent | internal/livereload/livereload.go:168-182 | Without a qualifying event, a disarmed timer stays disarmed and never fires. |
| Debounce.BurstFiresOnce | internal/livereload/livereload.go:172-181 | A burst followed by a quiet period that reaches the last event plus `debounce` fires the timer exactly once. |
| Debounce.Debouncer.constructor | internal/livereload/livereload.go:157-160 | The listener starts running with no timer armed. |
| Debounce.Debouncer.Deliver | internal/livereload/livereload.go:163-190 | One input moves the listener as `Step` says. A fire offers one signal to the slot, and the signal is dropped exactly when the slot was already full. |
| Health.WaitForHealth | internal/livereload/livereload.go:123-148 | The error is always nil. Without a URL it sleeps `RestartDelay` only when that is positive. With a URL it is ready right after the first response with a status in 200..399, or it times out after every poll, none healthy. It is ready exactly when some poll was healthy, and on the first poll when that one was. |
| Hub.NextClients | internal/livereload/server.go:35-61 | Only Register can add a client, and only its own. After Register the client is in the set, and after Unregister it is not. |
| Hub.RegisterAdds | internal/livereload/server.go:38-41 | Register adds the client and no other, and registering a present client changes nothing. |
| Hub.UnregisterIdempotent | internal/livereload/server.go:42-48 | Unregister removes exactly that client, and a second unregister changes nothing. |
| Hub.BroadcastNeverAdds | internal/livereload/server.go:49-58 | A broadcast keeps exactly the clients whose write succeeded and adds none. |
| Hub.RegisterThenUnregister | internal/livereload/server.go:38-48 | Connecting and then disconnecting a new client restores the client set. |
| Hub.ReloadHub.constructor | internal/livereload/server.go:26-33 | A new hub has no clients and has delivered nothing. |
| Hub.ReloadHub.Register | internal/livereload/server.go:38-41 | The client joins the set; nothing is closed or delivered. |
| Hub.ReloadHub.Unregister | internal/livereload/server.go:42-48 | The client leaves the set and is closed only if it was present. |
| Hub.ReloadHub.Broadcast | internal/livereload/server.go:49-58 | Every client whose write succeeds receives the message once and stays. Every client whose write fails is closed and removed. No client is added. |
| Hub.ReloadHub.Handle | internal/livereload/server.go:35-61 | One turn of the hub loop changes the client set exactly as the matching arm says, and closes only what that arm closes. A broadcast appends its message to the inbox of exactly the clients whose write succeeds; Register and Unregister write nothing. |
| Supervisor.KillErrorLogged | internal/livereload/livereload.go:199-203 | The kill filter (no contract of its own): `KillFilterIsOneTest` says it logs exactly the errors that do not contain "process already finished", and `ExpectedErrorsNotLogged` says the expected message is never logged. |
| Supervisor.WaitErrorLogged | internal/livereload/livereload.go:205-209 | The wait filter (no contract of its own): `ExpectedErrorsNotLogged` says an error containing "signal: killed" or "process already finished" is never logged. |
| Supervisor.KillFilterIsOneTest | internal/livereload/livereload.go:199-204 | A Kill error is logged exactly when it does not contain "process already finished". The second test, for "os: process already finished", never changes the decision. |
| Supervisor.ExpectedErrorsNotLogged | internal/livereload/livereload.go:199-210 | A Kill error containing "process already finished", and a Wait error containing "signal: killed" or "process already finished", are never logged. |
| Supervisor.StopActions | internal/livereload/livereload.go:198-211 | Stopping the old process takes at least two actions. The first is Kill of that process, and Wait of it is among them. |
| Supervisor.StopActionsShape | internal/livereload/livereload.go:198-211 | Stopping the old process starts with Kill, includes Wait, and neither builds, starts nor broadcasts. |
| Supervisor.LaunchActions | internal/livereload/livereload.go:213-236 | Build, start, health wait and broadcast after the stop (no contract of its own): `LaunchBroadcasts` says it broadcasts once exactly when build and start succeed with a healthy server and then ends with Start, AwaitHealth and the "reload" broadcast, while `BuildFailureAborts` and `StartFailureAborts` say a failing build or start ends the cycle. |
| Supervisor.CycleEffect | internal/livereload/livereload.go:197-241 | `currentProcess` either stays as it was or becomes the newly started process. The second happens only when the build does not fail and Start returns a process. |
| Supervisor.StopBeforeLaunch | internal/livereload/livereload.go:198-227 | With a current process, the cycle's first action is its Kill, and its Wait comes before any build or start. Without one, the cycle neither kills nor waits. |
| Supervisor.NoBuildCommandNoBuild | internal/livereload/livereload.go:213-219 | With an empty build command, a cycle runs no build. |
| Supervisor.BuildFailureAborts | internal/livereload/livereload.go:213-219 | A failed build ends the cycle with no start and no broadcast, and `currentProcess` is left as it was. |
| Supervisor.StartFailureAborts | internal/livereload/livereload.go:221-226 | A failed start leaves `currentProcess` as it was and broadcasts nothing. |
| Supervisor.LaunchBroadcasts | internal/livereload/livereload.go:213-236 | After the stop, the cycle broadcasts once when build and start succeed and never otherwise. On success it ends with Start, health wait, "reload". |
| Supervisor.BroadcastExactlyOnSuccess | internal/livereload/livereload.go:197-241 | A cycle broadcasts exactly once when build and start succeed and the health gate returns no error, and never otherwise. Then the new process is current, and the last three actions are Start, the health wait and the "reload" broadcast. |
| Supervisor.KilledHandleKilledAgain | internal/livereload/livereload.go:198-218 | After a failed build the killed handle stays current, so the next cycle kills it first and waits on it again. |
| Supervisor.Supervisor.constructor | internal/livereload/livereload.go:195 | The supervisor starts with no current process and an empty trace. |
| Supervisor.Supervisor.RestartCycle | internal/livereload/livereload.go:197-241 | One cycle appends exactly `CycleEffect`'s actions to the trace and sets `currentProcess` as `CycleEffect` says. The health error is nil, so the health-failure branch is never taken. It reloads exactly when build and start succeed, and only then does the hub broadcast "reload". |
| Supervisor.Supervisor.Launch | internal/livereload/livereload.go:213-236 | Build, start, health wait and broadcast append exactly `LaunchActions`. The new process is returned exactly when neither the build nor the start failed. |
| Supervisor.Supervisor.StopCurrent | internal/livereload/livereload.go:198-211 | Kill and Wait of the current process append exactly `StopActions`, which logs only the unexpected errors. |
| Watch.Reach | internal/livereload/livereload.go:248-262 | The reference traversal of one tree, every directory or error in walk order, with ignored directories cut off (no contract of its own). `ReachSound` and `ReachComplete` say it holds exactly the readable directories reached through non-ignored names. |
| Watch.WalkNode | internal/livereload/livereload.go:248-262 | `filepath.Walk` with the callback on one node (no contract of its own): `WalkNodeCutsReach` says it adds the reference traversal up to its first error and aborts with that error. |
| Watch.WalkEntries | internal/livereload/livereload.go:248-262 | The walk over a directory's entries in order, where SkipDir from a child moves on to the next one (no contract of its own): `WalkEntriesCutsReach` says it adds the traversal of the entries up to its first error. |
| Watch.WalkRoot | internal/livereload/livereload.go:248-265 | Walking one root never returns SkipDir: SkipDir at the root comes back as nil. |
| Watch.RootWalk | internal/livereload/livereload.go:246-265 | The walk of one trimmed entry of the watch list (no contract of its own): `RootWalkNeverSkips` says it never returns SkipDir, and `WalkRootSound` and `WalkRootComplete` describe what it adds. |
| Watch.WalkNodeCutsReach | internal/livereload/livereload.go:248-262 | The walk of a subtree adds exactly the directories the full traversal watches before its first error. It aborts exactly when the traversal meets an error, and with that error; SkipDir means nothing was visited. |
| Watch.WalkEntriesCutsReach | internal/livereload/livereload.go:248-262 | The same, for the entries of one directory in walk order, where SkipDir from a child moves on to the next entry. |
| Watch.ReachSound | internal/livereload/livereload.go:252-256 | Everything the traversal watches is a readable directory below the start, reached through names none of which is ignored. No file is ever watched. |
| Watch.ReachComplete | internal/livereload/livereload.go:252-256 | Every readable directory reached through non-ignored names is watched by the traversal, whatever errors the rest of the tree holds. |
| Watch.WalkRootSound | internal/livereload/livereload.go:247-262 | The walk of one root never returns SkipDir, aborts exactly when the tree holds a reachable error (with the first such error), and adds only readable directories on non-ignored paths under a root whose base name is not ignored. |
| Watch.WalkRootComplete | internal/livereload/livereload.go:247-262 | When the tree holds no reachable error, the walk finishes without error and adds every readable directory on a non-ignored path. |
| Watch.IgnoredDirNeverAdded | internal/livereload/livereload.go:253-255 | A directory on a path through an ignored name is never passed to `watcher.Add`. |
| Watch.RootWalkNeverSkips | internal/livereload/livereload.go:248-265 | The walk of a watch-list entry never reports SkipDir to AddRecursiveWatch. |
| Watch.WatchAllSucceeds | internal/livereload/livereload.go:245-268 | AddRecursiveWatch ends without error exactly when every root's walk does, and it never ends with SkipDir. |
| Watch.WatchAllCovers | internal/livereload/livereload.go:245-268 | When AddRecursiveWatch succeeds, it has added every directory that any root's walk adds. |
| Watch.SequenceSound | internal/livereload/livereload.go:246-266 | Walks run in order add only what some single walk adds. |
| Watch.WatchAllSound | internal/livereload/livereload.go:245-268 | Whether it fails or not, AddRecursiveWatch adds only directories that the walk of some root adds. |
| Watch.WatchAllAddsOnlyWatchable | internal/livereload/livereload.go:245-268 | Every directory AddRecursiveWatch adds lies under a trimmed entry of the watch list whose base name is not ignored. It is a readable directory reached from that root through non-ignored names. |
| Watch.WatchAllFirstError | internal/livereload/livereload.go:245-268 | When AddRecursiveWatch fails, it returns the error of the first root whose walk failed, and every earlier root walked without error. |
| Watch.Watcher.Add | internal/livereload/livereload.go:256-259 | Every call is recorded. The result is an error exactly for a failing path, and only a successful call adds the path to the watch list. |
| Watch.Watcher.LogFailure | internal/livereload/livereload.go:257-259 | The failed path is logged and nothing else changes. |
| Watch.WalkTree | internal/livereload/livereload.go:248-262 | The imperative walk of a subtree calls `watcher.Add` on exactly `WalkNode`'s paths, in order, and returns its result. |
| Watch.WalkChildren | internal/livereload/livereload.go:248-262 | The loop over a directory's entries calls Add on exactly `WalkEntries`'s paths, stops at the first error, and returns `WalkEntries`'s result. |
| Watch.WatchRoot | internal/livereload/livereload.go:247-265 | One entry of the watch list is trimmed and walked; the calls and the result are that entry's root walk, and a SkipDir at the root is no error. |
| Watch.AddRecursiveWatch | internal/livereload/livereload.go:245-268 | The calls to `watcher.Add` are exactly `WatchAll`'s, in order. The result is nil when every root walks cleanly, and otherwise the first walk error, with the later roots left unwalked. |
| Config.Merge | main.go:45-65 | The merged watch and ignore lists are never empty. The run command is empty exactly when neither the flag nor the file sets one. |
| Config.Settle | main.go:45-74 | The merge is fatal exactly when neither the flag nor the file names a run command, and then the message is `RunRequired`. Otherwise the run command is set and the ignore map's keys are the trimmed ignore entries. |
| Config.BuildIgnoreMap | main.go:71-74 | The map's keys are exactly the trimmed ignore entries, every value is true, and every entry's trimmed form is ignored. |
| Config.LoadSettings | main.go:45-74 | The step-by-step merge gives exactly `Settle`, and it fails with "Error: --run flag or 'run' in livereload.toml is required" exactly when neither the flag nor the file names a run command. |
| Config.FlagPrecedence | main.go:46-57 | For build and run, a set flag replaces the file value and an empty flag keeps it. For a non-empty file list, an empty list flag keeps the file list too. |
| Config.AllFlagsSetIgnoreFile | main.go:46-57 | With all four flags set, the file's contents make no difference to the outcome. |
| Config.NoFlagsKeepFile | main.go:46-65 | With no flag set, a file that names its lists is taken as it is. |
| Config.ListFlagsSplit | main.go:52-57 | A set list flag becomes comma-free pieces that join back, with commas, to the flag. |
| Config.WatchFlagRoundTrip | main.go:52-54 | Passing a comma-joined list of comma-free names as `--watch` gives back exactly that list. |
| Config.DefaultsFillEmptyLists | main.go:59-65 | The merged lists are never empty. With neither flag nor file, watch becomes ["."] and ignore becomes [".git", "node_modules"]. |
| Config.SetListFlagNoDefault | main.go:52-62 | A set `--watch` flag is used as split even when its pieces are empty, and never falls back to the default. |
| Config.MergeIdempotent | main.go:45-65 | Merging the merged configuration again with the same flags changes nothing. |
| Config.RunIsRequired | main.go:67-69 | The outcome is the fatal error exactly when the run command is empty after the merge; otherwise the settings carry a non-empty run command. |
| Config.IgnoreMapExact | main.go:71-74 | A name is ignored exactly when it is the trimmed form of some ignore entry, and every key is already trimmed. |
| Config.PaddedEntryIgnored | main.go:71-74 | An entry written with surrounding white space, such as " vendor ", still ignores the bare name. |
| Config.DefaultIgnoreMap | main.go:63-74 | Without any ignore setting, the map ignores exactly `.git` and `node_modules`. |
| Livereload.App.constructor | internal/livereload/livereload.go:101-119 | NewLivereload's defaults are a 100ms debounce, a 100ms restart delay, a 5s health timeout, a 50ms health interval, no health URL and a fresh hub. After the start of `Run`, the restart slot holds the initial signal. |
| Livereload.App.Listen | internal/livereload/livereload.go:160-190 | One listener turn moves the debounce timer as `Step` says and touches neither the supervisor nor the hub. An accepted fire adds one signal, which keeps the invariant that every cycle consumed one signal. |
| Livereload.App.Restart | internal/livereload/livereload.go:197-241 | With a pending signal the loop takes it and runs exactly one cycle as `CycleEffect` says; with none, nothing changes. When the cycle reloads, the hub sends "reload" to every client whose write succeeds and closes and drops the rest. Otherwise the hub is untouched. |
| Livereload.InitialRun | internal/livereload/livereload_test.go:100-121 | Right after startup a cycle runs with no event, and it builds and starts without killing or waiting on anything. |

## Left out

- Goroutines, channels, `sync.Mutex` and the timer goroutine are flattened into sequential calls on a logical clock. Races between `time.AfterFunc` and `Stop` are not modelled.
- The wall clock and the HTTP client inside `waitForHealth` are replaced by the list of poll responses before the deadline. The sleeps are not modelled except as the `Delayed` outcome.
- `RealWatcher`, `RealCommandRunner` and `RealProcess` are replaced by oracles: `CycleOracle` for Kill, Wait, Build and Start, `Watcher.failing` for `watcher.Add`, and `writeOk` for websocket writes.
- `StartServer`, `serveWs` and `serveScript` (HTTP and websocket I/O and listener setup) are not part of this model. The hub's broadcast channel send is modelled as a direct call to `ReloadHub.Broadcast`.
- `filepath.Walk` and `os.FileInfo` are replaced by an abstract tree in which a path is a list of names, so `filepath.Join` and `filepath.Clean` are not modelled. The root's name is taken as its base name. The entries of a directory are given in walk order; they are not sorted by name.
- Reading livereload.toml, TOML decoding, `flag` parsing, the fsnotify setup and all logging and printing are left out. Their results are inputs, or entries in the action trace.
- main.go:88 calls `NewLivereload` with four arguments where seven are declared (internal/livereload/livereload.go:101), so `main` as written does not compile. Only the merge logic before it is modelled, and `Livereload.App.constructor` takes the build and run commands and the ignore map.
- The end-to-end test, the browser script and the example server are not part of this model.
- Supervisor.Supervisor.RestartCycle: the health gate's error is fixed to nil, because `waitForHealth` cannot return anything else. The pure `CycleEffect` still covers the failure branch at internal/livereload/livereload.go:230-233, but the method's contract says it is never taken.
- Paths, flags and configuration values are taken as valid UTF-8: strings are sequences of Unicode scalar values, so invalid byte sequences are not modelled.
- Hub.ReloadHub.Broadcast: the order in which clients are written is left to the solver's choice, because Go's map iteration order is unspecified.
