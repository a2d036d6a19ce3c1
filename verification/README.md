# Watch-mode build coordinator of rust-gpu-builder

`rust-gpu-builder` compiles a rust-gpu shader crate and, when given watch
paths, recompiles it whenever a watched file changes. This project models the
three pieces of logic in `src/main.rs` that carry that behaviour, and proves
properties of them in Dafny:

- **Build coordinator** (`coordinator.dfy`, module `Coordinator`). The loop
  in `main` owns a single `building` flag, which starts cleared. Each
  iteration it handles exactly one input, either a change signal or a build
  outcome. `select!` serialises both channels onto this one loop, so the
  loop is modelled as a pure transition function `Step`, run over arbitrary
  traces by `Run`. The imperative form of the loop is `CoordinatorLoop`. The
  proved properties are single flight (launches minus reports is always the
  flag, 0 or 1), debounce, dropping of changes that arrive mid-build, one
  report per outcome, and relaunch after an outcome.
- **Watch root and event filter** (`watch.dfy`, module `Watch`). For a
  directory target, the target itself is the watch root. For a file target,
  the root is the target's parent. For a file target, a notification is
  forwarded only when one of its paths equals the canonical target. For a
  directory target, every successful notification is forwarded. Watch errors
  are never forwarded. Each forwarded notification sends exactly one unit
  signal.
- **`--spirv-metadata` value parser** (`metadata.dfy`, module `Metadata`). It
  maps exactly `"none"`, `"name-variables"` and `"full"` to the three
  metadata levels. Every other string is rejected with `InvalidValue`.

`wrappers.dfy` holds the `Option` and `Result` datatypes used for Rust's own.

Paths are canonical and are modelled as sequences of components. This is
because Rust's `PathBuf` equality compares paths component by component.

## Model

| member | source | states |
|---|---|---|
| Metadata.ParseSpirvMetadata | src/main.rs:81-88 | accepts a string iff it is one of the three spellings; an accepted string is the spelling of the level returned; every other string is the `InvalidValue` error |
| Metadata.SpellingRoundTrip | src/main.rs:82-85 | each metadata level is parsed back from its own spelling |
| Metadata.ParseAcceptsExactlySpellings | src/main.rs:81-88 | a string parses to a level exactly when it is that level's spelling |
| Metadata.SpellingInjective | src/main.rs:82-85 | no two levels share a spelling, so the match arms are unambiguous |
| Metadata.DefaultParsesToNone | src/main.rs:108-110 | the option's default text `"none"` parses to the `None` level |
| Watch.Parent | src/main.rs:56 | the root has no parent; otherwise the parent plus the last component gives back the path |
| Watch.WatchRoot | src/main.rs:53-57 | a directory target is its own watch root; a file target is watched through its parent, one level up, and only a parentless file target fails (the `unwrap` panic); the root is always an ancestor-or-self of the target |
| Watch.FindPath | src/main.rs:64-68 | finds some index iff the target is among the event's paths, and that index is the first one holding it |
| Watch.HandleNotification | src/main.rs:61-73 | sends at most one signal, exactly when the notification is relevant: never for a watch error, always for an `Ok` on a directory target, and for a file target iff some path equals the canonical target |
| Watch.WatchLoop | src/main.rs:60-75 | the watch loop sends one signal per relevant notification and never more signals than notifications |
| Watch.CountRelevantAppend | src/main.rs:60-75 | signal counts add up over consecutive stretches of the notification stream |
| Watch.DirectoryForwardsEveryOk | src/main.rs:63 | for a directory target the number of signals equals the number of successful notifications |
| Watch.ErrorsProduceNoSignal | src/main.rs:73 | a stream of watch errors produces no signal |
| Watch.SiblingIsWatchedButNotTarget | src/main.rs:53-68 | a sibling of a file target (same parent, different name) lies under the registered watch root, so its changes are delivered, but it is not the target |
| Watch.SiblingsDropped | src/main.rs:56-71 | for a file target, a notification stream whose events only touch siblings of the target sends no signal |
| Watch.WatchRootCoversTarget | src/main.rs:53-68 | every forwarded file-target notification names a path under the registered watch root |
| Coordinator.Notice | src/main.rs:230-235 | the "Build complete!" line is written iff the outcome is a success, and "Build failed!" iff it is a failure |
| Coordinator.Step | src/main.rs:215-238 | a change while idle launches exactly one build and sets the flag; a change while building changes nothing; an outcome clears the flag and reports it, success or failure alike |
| Coordinator.CoordinatorLoop | src/main.rs:191-239 | the loop starting from a cleared flag matches the trace semantics; on well-formed traces launches equal reports plus the flag; reports equal outcomes; launches never exceed changes |
| Coordinator.RunAppend | src/main.rs:211-239 | running two traces back to back equals running their concatenation, so properties of a stretch apply anywhere in a run |
| Coordinator.SingleFlight | src/main.rs:211-239 | on a well-formed trace, launches minus reports equals the flag's change from start to end |
| Coordinator.WellFormedPrefix | src/main.rs:219-224 | every prefix of a trace the executor can produce is one it can produce |
| Coordinator.AtMostOneInFlight | src/main.rs:191-239 | from the initial cleared flag, at every point of a well-formed trace the builds in flight (launches minus reports) are 1 while building and 0 otherwise, so never more than one |
| Coordinator.ReportsMatchOutcomes | src/main.rs:228-237 | each outcome is reported exactly once |
| Coordinator.LaunchesBoundedByChanges | src/main.rs:215-226 | no build is launched without a change signal |
| Coordinator.ChangesDroppedWhileBuilding | src/main.rs:216 | any run of changes while building leaves the state unchanged and launches nothing |
| Coordinator.Debounce | src/main.rs:215-226 | K >= 1 changes reaching an idle coordinator launch exactly one build and leave it building |
| Coordinator.RelaunchAfterOutcome | src/main.rs:215-237 | after an outcome of either kind, the next change launches exactly one new build |
| Coordinator.BurstThenFailureThenRebuild | src/main.rs:211-239 | three changes launch one build; its failure is reported; a fourth change launches a second build |
| Coordinator.DebounceAfter | src/main.rs:215-226 | after any history that leaves the coordinator idle, a burst of K >= 1 changes launches exactly one build |
| Coordinator.DroppedAfter | src/main.rs:216 | after any history that leaves a build in flight, a burst of changes changes neither the state nor the actions |
| Coordinator.RelaunchAfter | src/main.rs:215-237 | after any history, an outcome followed by a change reports that outcome and launches exactly one new build |
| Coordinator.LaunchesAppend | src/main.rs:219-225 | launch counts add up over concatenated action sequences |
| Coordinator.ReportsAppend | src/main.rs:230-235 | report counts add up over concatenated action sequences |

## Left out

- The `notify` watcher, the channels, the thread pool and `block_on` (src/main.rs:23-38, 187-189, 205-207, 243) are runtime plumbing. The choice `select!` makes between the two channels is modelled as an arbitrary interleaving of events in a trace.
- The capacity-1 channel between a watcher callback and its watch loop is not modelled. Each watch loop is modelled over the finite notification sequence it receives.
- `std::fs::canonicalize` and its panic (src/main.rs:46-47) are file-system I/O. Targets are taken as already canonical.
- Watch.HandleNotification: treats directory-ness as one fixed boolean per target. The source calls `path.is_dir()` again on every event (src/main.rs:63), so a target that changes kind while watched is not modelled.
- Watch.WatchLoop: relies on the same fixed directory-ness as Watch.HandleNotification.
- Watch.WatchRoot: uses the same fixed boolean for the `is_dir()` query at src/main.rs:53.
- `build_shader` and `SpirvBuilder` (src/main.rs:148-163) are an external compiler. A build's result is the boolean carried by a `BuildFinished` event.
- Coordinator.SingleFlight: assumes a well-formed trace, in which an outcome only arrives while the flag is set. The source relies on the executor for this: it sends one outcome per spawned build. `Step` itself accepts an outcome in any state, as the source does.
- Coordinator.AtMostOneInFlight: assumes a well-formed trace, for the same reason as Coordinator.SingleFlight.
- Command-line parsing with clap and the `ShaderBuilder` options struct (src/main.rs:91-144, 169) are not modelled, except for the metadata value parser. Also left out: the initial one-shot build (src/main.rs:175-180), the early return when no watch paths are given, and all `tracing`/`println!` output. Only the text of the coordinator's reports is kept.
- `change_rx.next()` and `build_rx.next()` could only yield `None` once every sender is dropped. The loop itself holds a sender of each channel, so this cannot happen, and it is not modelled. The loop never terminates, so only finite prefixes of its run are modelled.
