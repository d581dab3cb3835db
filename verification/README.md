# Helix support scripts, verified

The scripts around the Helix backend keep state that must survive crashes, stop processes they do
not want to confuse with strangers, rewrite command lines and source text, and accept or refuse
recorded evidence. This project models their hardest parts in Dafny and proves what they promise, for
every input and every run. `dafny verify dfyconfig.toml` checks all of it.

## What is modelled

- **Notebook migration** (`docker/unsloth_nb_strip_colab.py`). `NotebookCleaning` is the cleaning
  itself, `MigrationProtocol` the record-then-publish protocol as a step machine over the state file and
  the notebooks, `MigrationSafety` what every run keeps, `MigrationDuplicates` what becomes of two records of
  one notebook, `Migrator` the imperative loop, proved to be a run of that machine.
- **Process fencing** (`scripts/benchmark-helix-v3-source-runtime.py`). `Kernel` is a process table with
  pid reuse (section 4.14 of POSIX.1-2017 Base Definitions), `ProcessFence` the invariant that makes a
  group signal safe, `Termination` the harness that sends it while other processes keep acting and the root
  may be reaped behind its back, `ProcessSnapshot` the descendant closure over a snapshot that loses rows.
  That the root must not be reaped is needed (`ReapedRootIsNoFence`), and the probe finds out if it was
  (`ProbeTells`). The comparison of a fresh `ps` snapshot with the captured identities is defence in depth: it
  decides whether the signal is sent, and the safety theorem does not rest on it.
- **Event replay** (the same script). `SseFrames`, `SseConsumer` and `SseReplay` are the bounded consumer
  of the event stream, stricter than section 9.2.6 of the WHATWG HTML standard, and the rule that says how
  the run ended.
- **The pip/uv shim** (`docker/unsloth_pip_shim.py`). `PipScanner` is the argument scanner, `PipFates` what becomes
  of every item of a command, `PipReread` the reading of its output by its own rules, `PipEndOfOptions` the reading by a tool that stops at `--`,
  `PipClusters` the expansion of short flags against section 12.2 of POSIX.1-2017 Base Definitions.
  `RequirementsFilter` and `RequirementsStore` are the filtering of requirements files with nested includes,
  `RequirementsShelter` says which files it cleans completely, `RequirementsReports` what it reports,
  `RequirementsLines` and `RequirementsText` are the same on physical lines.
- **The tool ledger** (`scripts/benchmark-helix-v3-tool-scenarios.py`). `ToolLedger` says what acceptance
  means, `ToolLedgerVerifier` is the verifier.
- **Source rewriting** (`scripts/enforce_kwargs_spacing.py`): `KwargsSpacing`, `StringMerging`, `LineEdits`.
- **Image similarity** (`scripts/diffusion_quality.py`): `Ssim` and, for what a value of 1 means, `SsimIdentity`, over
  the reals.
- **Overlay activation** (`scripts/apply_helix_backend_overlay.py`): `OverlayManifest`, `OverlayActivation`.
- **npm reachability**, **import lint**, **source identity**: `NpmReachability`, `ImportLint`,
  `SourceIdentity`.
- `Text`, `Sequences` and `Wrappers` hold what several modules share.

## Where the code does not keep its word

Each point is a lemma; where the code does keep its word is stated as an exact condition.

- The in-place strip is called idempotent (`docker/unsloth_nb_strip_colab.py:8`). One pass takes one
  announcement from a cell, so a header cell with two needs two passes (`NotIdempotent`); one pass is
  enough if and only if `PassesNeeded` is at most one (`IdempotentIff`, `SettlesExactly`).
- The docstring of `_resume` says that a real edit is never taken for an interrupted publish. An edit is
  overwritten if and only if it cleans to the recorded bytes (`EditOverwrittenIff`,
  `EditTakenForInterruptedPublish`).
- A notebook that is no JSON object, or has a number as the data of an output, ends the whole pass; it blocks
  its own and every later record at every start (`PassOutcome`, `PoisonBlocks`).
- Two records of one notebook: a pass strands the later one if and only if it matched a notebook that needs
  cleaning and the earlier one matched it too or is what it cleans to (`LaterTwinStrandedIff`), and the earlier
  one if and only if the notebook, cleaned once, needs cleaning again and the later one has that done
  (`EarlierTwinStrandedIff`, `DuplicateRecordStrands`). Neither this script nor
  `docker/unsloth_sync_notebooks.sh` (205-217, 222-316, 323-372, 458-672) adds a second record of a path, so this
  takes a state file edited by other means.
- The constraint the shim adds is swallowed by a flag left without a value, or by a flag whose value is `--`
  (`InsertedIff`, `InjectedIff`, `ConstraintLost`); which commands that happens to is `InjectedForAnyTail`.
- The scanner reads flags after `--`, the real tool does not: nothing protected gets through if and only if no
  flag after a `--` is left with a value that names something protected (`RealKeepsOutIff`,
  `OperandGetsThrough`).
- Expanding short flags keeps the meaning if and only if the line is `Tame`; `-r -qx` is torn apart
  (`MeaningKeptIff`, `ValueTornApart`).
- The filter of requirements files leaves exactly the surviving requests, at every depth of reading, if and only
  if the file is `Sheltered` (`CleanIffSheltered`): includes deeper than are followed, and includes written over
  two lines, ask for nothing to be struck, and the latter still lead where they led. A request survives
  behind more than eight includes and behind an include over two lines (`DeepRequestSurvives`,
  `JoinedIncludeSurvives`); such an include with a relative target is lost from a copy (`JoinedRelativeIncludeMoves`,
  `MovedIsLost`).
- A replacement swallows the next requirement if and only if it is an extras request whose marker ends in a
  backslash, or an include without comment whose new target does (`ExtrasLoudIff`, `IncludeLoudIff`,
  `LoudReplacementSwallows`, `LoudReplacementWritten`).
- Gluing string literals changes their value if and only if one ends in an octal escape that the next digit
  lengthens (`MergeKeepsValueIff`, `MergeCanChangeValue`). The script's own comparison of syntax trees catches
  this; without it the merge would be wrong.
- The manifest's path test admits `.` (`CanonicalIff`); the file test after it does not.
- A successful overlay makes the next run find it current unless the manifest lists the runtime manifest
  itself with other bytes (`NextRunIsCurrentIff`).
- A clash of import names goes unreported if and only if the import chooses no name, its source was not seen
  before, and its name was first bound without a choice and then by one (`UnreportedIff`, `ClashUnreported`); still,
  a body with any clash has a finding (`SilentIffNoClash`).

## Assumptions

- Two windows the migration script cannot close are atomic steps here: the check and the replace of `_publish`
  (168-172), and the hash at 273 with the one at 141. User saves interleave everywhere else. One process migrates
  at a time. The theorems about a whole pass assume distinct paths in the state file.
- The digest of a notebook never collides and holds no space. For sha256 as text elsewhere only the texts at
  hand are assumed not to collide.
- A process is launched into its session in one step (`start_new_session=True`).
- While SIGCHLD has its default disposition only `Popen` reaps the root; under any other, anybody in the harness
  may. During the termination other code of the harness may take SIGCHLD from its default but does not put
  it back, and does not take it between the last look at it and the `killpg` that follows; other processes act there
  too. The harness lives on and has no other child under the root's number (`TwinFoolsProbe` says why).
- `Proper` and `ProperFlags` say what the shim's flag tables look like: flags begin with a dash, and the tables
  that must be disjoint are.
- Tokens, JSON, requirement specifiers and syntax trees come from libraries and are taken as given; text is a
  sequence of characters, and white space is ASCII.

## Model

| member | source | states |
|---|---|---|
| NotebookCleaning.StripLinesRemovesOne | docker/unsloth_nb_strip_colab.py:59-66 | one pass over a cell takes out exactly one announcement, and leaves the text alone when there is none |
| NotebookCleaning.StripLinesLeaves | docker/unsloth_nb_strip_colab.py:59-66 | what is left is the lines without the first announcement and a blank line directly after it; there is nothing to take exactly when no line announces |
| NotebookCleaning.StripHeaderRemovesOneEach | docker/unsloth_nb_strip_colab.py:86-99 | in the leading markdown block the largest number of announcements in a cell drops by exactly one, outputs stay, and nothing changes exactly when there is none |
| NotebookCleaning.CleanOutputsRemovesWidgets | docker/unsloth_nb_strip_colab.py:102-119 | after cleaning no output carries a widget view, announcements stay, and nothing changes exactly when there was none |
| NotebookCleaning.KeptOutputsLeft | docker/unsloth_nb_strip_colab.py:111-118 | exactly the outputs without a widget view stay, each where the ones that stay before it leave it |
| NotebookCleaning.CleanedNotebookLeaves | docker/unsloth_nb_strip_colab.py:86-124 | nothing else changes: cells behind the header keep their source, header cells lose at most the first announcement, metadata loses at most `widgets`, and all the rest is as it was |
| NotebookCleaning.CleanedNotebookIsCleaner | docker/unsloth_nb_strip_colab.py:86-124 | the count of announcements, widget outputs and widget metadata drops strictly unless it is zero, and the number of passes needed by exactly one |
| NotebookCleaning.CleanMakesProgress | docker/unsloth_nb_strip_colab.py:134-160 | a clean that changes a file needs one pass less afterwards; one that changes nothing finds nothing left |
| NotebookCleaning.SettlesExactly | docker/unsloth_nb_strip_colab.py:134-160 | after n cleans there is nothing left to do if and only if n is at least the number of passes needed |
| NotebookCleaning.IdempotentIff | docker/unsloth_nb_strip_colab.py:8-8 | cleaning twice is cleaning once if and only if one pass suffices |
| NotebookCleaning.NotIdempotent | docker/unsloth_nb_strip_colab.py:8-8 | a header cell that announces twice is still dirty after one pass |
| NotebookCleaning.AnnouncementIsIntro | docker/unsloth_nb_strip_colab.py:28-38 | the plain announcement counts as one |
| NotebookCleaning.CommentIsIntro | docker/unsloth_nb_strip_colab.py:36-37 | so does an announcement inside a comment that opens and closes on its line |
| NotebookCleaning.OpenCommentIsNone | docker/unsloth_nb_strip_colab.py:29-38 | a comment that does not close on its line is never taken out |
| NotebookCleaning.OtherLineIsNone | docker/unsloth_nb_strip_colab.py:29-38 | neither is a line that begins with something else |
| NotebookCleaning.BlankIff | docker/unsloth_nb_strip_colab.py:63-64 | the line that may go with the announcement is one of nothing but white space |
| NotebookCleaning.WidgetIff | docker/unsloth_nb_strip_colab.py:111-116 | an output goes exactly if its data has the widget view among its names, or in its text |
| NotebookCleaning.Document.StripIntro | docker/unsloth_nb_strip_colab.py:86-99 | the in-place loop over the leading cells leaves exactly the stripped header, and reports whether it changed anything |
| NotebookCleaning.Document.CleanWidgets | docker/unsloth_nb_strip_colab.py:102-124 | the in-place loop over the outputs leaves exactly the outputs without widget views, names and texts told apart, dies exactly where the data is a scalar other than zero, false or null, and reports change |
| NotebookCleaning.StageClean | docker/unsloth_nb_strip_colab.py:134-160 | staging yields the cleaned copy, nothing when there was nothing to clean, or dies with the uncaught error; the copy differs from the notebook in nothing but announcements, widget outputs and widget metadata |
| MigrationProtocol.SplitFormat | docker/unsloth_nb_strip_colab.py:266-285 | a written record splits back into its hash and path |
| MigrationProtocol.FormatSplit | docker/unsloth_nb_strip_colab.py:266-285 | a line that splits is written back unchanged |
| MigrationProtocol.RunKeepsShape | docker/unsloth_nb_strip_colab.py:261-295 | in every run the state file keeps its lines: malformed ones verbatim, records keep their paths |
| MigrationProtocol.RecordedBeforePublished | docker/unsloth_nb_strip_colab.py:239-295 | in every run with user saves, a notebook is replaced only by its cleaning, and only when the durable state already holds the hash of the new bytes |
| MigrationSafety.NoStranding | docker/unsloth_nb_strip_colab.py:239-295 | crashes, failed writes, failed publishes and restarts in any order keep a record recoverable: its notebook hashes or cleans to it |
| MigrationSafety.MatchingIsSafe | docker/unsloth_nb_strip_colab.py:253-257 | a record that matches its notebook is a safe starting point |
| MigrationSafety.UserEditsKept | docker/unsloth_nb_strip_colab.py:273-276 | a notebook that neither matches nor cleans to its record is never written, and its line never changes |
| MigrationSafety.OthersUntouched | docker/unsloth_nb_strip_colab.py:269-272 | in no run is a file written that is not an `.ipynb` file with a record |
| MigrationSafety.EditTakenForInterruptedPublish | docker/unsloth_nb_strip_colab.py:197-206 | an edit that saves the published notebook again with widget state is taken for an interrupted publish |
| MigrationSafety.EditOverwrittenIff | docker/unsloth_nb_strip_colab.py:197-214 | a pass overwrites a notebook that does not match its record if and only if the notebook cleans to the record |
| MigrationSafety.QuietRunIsSettle | docker/unsloth_nb_strip_colab.py:261-295 | an undisturbed run to the end does what the closed form Settle says |
| MigrationSafety.SettleIsQuietRun | docker/unsloth_nb_strip_colab.py:261-295 | the closed form is such a run |
| MigrationSafety.PassOutcome | docker/unsloth_nb_strip_colab.py:261-295 | one undisturbed pass cleans every claimed notebook once and re-records it, up to the first notebook it dies on, and touches nothing from there on |
| MigrationSafety.PassKeepsShape | docker/unsloth_nb_strip_colab.py:261-295 | a pass keeps lines and the distinctness of paths |
| MigrationSafety.RecoveredByOnePass | docker/unsloth_nb_strip_colab.py:239-257 | after any run of failures and crashes one undisturbed pass leaves the record matching again |
| MigrationSafety.PassesConverge | docker/unsloth_nb_strip_colab.py:239-295 | after n passes a notebook has been cleaned n times and still matches; nothing is left exactly from the number of passes needed on |
| MigrationSafety.PoisonBlocks | docker/unsloth_nb_strip_colab.py:134-149 | a notebook the cleaning dies on blocks its own and all later records forever |
| MigrationDuplicates.PassOverTwins | docker/unsloth_nb_strip_colab.py:261-295 | with two records of one notebook the first has its turn on the notebook and the second on what that left, wherever the lines stand |
| MigrationDuplicates.LaterTwinStrandedIff | docker/unsloth_nb_strip_colab.py:261-295 | the later record, recoverable before, is unrecoverable after a pass if and only if it matched a notebook that needs cleaning and the earlier one matched it or is what it cleans to |
| MigrationDuplicates.EarlierTwinStrandedIff | docker/unsloth_nb_strip_colab.py:261-295 | the earlier record is unrecoverable after a pass if and only if the notebook, cleaned once, needs cleaning again and the later one matches it then or is what it cleans to |
| MigrationDuplicates.DuplicateRecordStrands | docker/unsloth_nb_strip_colab.py:261-295 | two equal records of a notebook that needs cleaning: the second is left neither matching nor recoverable |
| Migrator.Stores.WriteState | docker/unsloth_nb_strip_colab.py:179-194 | the durable file is replaced as a whole or not at all |
| Migrator.Stores.Publish | docker/unsloth_nb_strip_colab.py:163-176 | the staged copy lands only on the bytes it was made from |
| Migrator.Stores.ResumePublish | docker/unsloth_nb_strip_colab.py:197-214 | finishing an interrupted publish is a run of the machine |
| Migrator.Stores.Migrate | docker/unsloth_nb_strip_colab.py:239-304 | whatever the outside does, the loop performs a run of the machine; left alone, it performs exactly one pass |
| ProcessFence.LaunchFences | scripts/benchmark-helix-v3-source-runtime.py:2546-2555 | a process launched into its own session is fenced in |
| ProcessFence.HappenKeepsFence | scripts/benchmark-helix-v3-source-runtime.py:2425-2485 | every fork, exit, reap, setpgid and setsid of any process keeps the fence while the root stays unreaped |
| ProcessFence.FenceHolds | scripts/benchmark-helix-v3-source-runtime.py:2425-2485 | so does every sequence of such events |
| ProcessFence.HappenKeepsPinned | scripts/benchmark-helix-v3-source-runtime.py:2425-2485 | every such event, a reap of the root by anybody included, leaves the root fenced in or gone for good |
| ProcessFence.ProbeTells | scripts/benchmark-helix-v3-source-runtime.py:2133-2153 | there is a child with the root's number if and only if the root is still fenced in; otherwise nobody born as the root is left |
| ProcessFence.TwinFoolsProbe | scripts/benchmark-helix-v3-source-runtime.py:2133-2153 | a second child under the number of a lost root would be taken for it |
| ProcessFence.GroupSignalSafety | scripts/benchmark-helix-v3-source-runtime.py:2445-2470 | with pid reuse, everything the group signal reaches descends from the launched root, and the harness is not among it |
| ProcessFence.ReapedRootIsNoFence | scripts/benchmark-helix-v3-source-runtime.py:2133-2153 | once the root is reaped, a stranger can own the group number: the probe must not reap |
| Termination.Revalidate | scripts/benchmark-helix-v3-source-runtime.py:2282-2313 | the verdict says exactly which of mismatch, absence, lack of proof and proof the fresh snapshot shows |
| Termination.Harness.ProbeLifetime | scripts/benchmark-helix-v3-source-runtime.py:2133-2153 | the root is reported lost exactly when somebody else has reaped it, running or exited exactly when it is still fenced in, and neither when SIGCHLD is not at its default or the call fails |
| Termination.Harness.Poll | scripts/benchmark-helix-v3-source-runtime.py:2476-2484 | polling reaps the root exactly when it has exited, once, takes note of a root that is no child any more, and changes nothing else |
| Termination.Harness.SignalRoot | scripts/benchmark-helix-v3-source-runtime.py:2471-2484 | a signal to the root's pid reaches the root exactly if it is still running, and nobody otherwise |
| Termination.Harness.SignalGroup | scripts/benchmark-helix-v3-source-runtime.py:2463-2470 | the group signal reaches descendants of the root only |
| Termination.Harness.SignalIfProven | scripts/benchmark-helix-v3-source-runtime.py:2444-2470 | if the root can be reaped by others up to the probe, the probe and the SIGCHLD checks still establish that it is fenced in when the group is signalled |
| Termination.Harness.StopRoot | scripts/benchmark-helix-v3-source-runtime.py:2471-2484 | a running root is asked to stop; a root still there after the wait is killed; otherwise there is a return code |
| Termination.Harness.TerminateOwned | scripts/benchmark-helix-v3-source-runtime.py:2425-2485 | a root lost before the call is not signalled, by group or by pid; the group is signalled exactly if all guards pass and SIGCHLD is left alone, and then exactly descendants of the launched root are reached, whatever other processes do in between; the call ends with a return code or with both signals to the root delivered; success means a signal or an empty group |
| ProcessSnapshot.DescendantClosure | scripts/benchmark-helix-v3-source-runtime.py:2035-2053 | the traversal ends, on cyclic parent data too, with the least closed set containing the root |
| ProcessSnapshot.DescendantsAreChained | scripts/benchmark-helix-v3-source-runtime.py:2035-2053 | that set is exactly what chains of parents tie to the root |
| ProcessSnapshot.ClosureSurvivesLoss | scripts/benchmark-helix-v3-source-runtime.py:2218-2243 | losing rows outside the closure does not change it |
| ProcessSnapshot.EnrichSessions | scripts/benchmark-helix-v3-source-runtime.py:2056-2090 | enrichment fails exactly when a protected row has no session, and otherwise keeps exactly the rows with one |
| ProcessSnapshot.CaptureIdentities | scripts/benchmark-helix-v3-source-runtime.py:2246-2266 | the capture is empty or exactly the root and its descendants in the full snapshot, and is empty exactly when the evidence has a hole |
| SseFrames.JsonDepth | scripts/benchmark-helix-v3-source-runtime.py:1208-1225 | a value is refused if and only if it is nested deeper than the limit (from level 0), and its depth is returned otherwise |
| SseFrames.DepthIff | scripts/benchmark-helix-v3-source-runtime.py:1208-1225 | the depth is the number of containers that stand one in the other |
| SseFrames.PrivateIff | scripts/benchmark-helix-v3-source-runtime.py:986-997 | the search finds something if and only if something in the value, at any depth, is a text that mentions the trace or an object with a private field |
| SseFrames.ContainsPrivateTrace | scripts/benchmark-helix-v3-source-runtime.py:986-997 | the nested loops are that search |
| SseFrames.ReadGivesLast | scripts/benchmark-helix-v3-source-runtime.py:1264-1270 | event and id are those of the last line that gives them |
| SseFrames.ReadGivesData | scripts/benchmark-helix-v3-source-runtime.py:1271-1272 | the data is that of every data line, in order |
| SseFrames.DecimalOfDigits | scripts/benchmark-helix-v3-source-runtime.py:1286-1286 | a cursor is read as the number it is written for |
| SseFrames.JudgeEmitsIff | scripts/benchmark-helix-v3-source-runtime.py:1254-1325 | a block emits an event if and only if its data parses to an object with exactly the canonical fields that agree with its id and event lines, nested at most 32 deep, and nothing in it tells of the private trace |
| SseFrames.JudgeNothingIff | scripts/benchmark-helix-v3-source-runtime.py:1273-1275 | a block is passed over if and only if it has neither data nor id, and refused if and only if it has one of them and announces nothing |
| SseFrames.ReadBlock | scripts/benchmark-helix-v3-source-runtime.py:1254-1312 | the reading loop and the checks give that verdict |
| SseFrames.EmittedIsWellFormed | scripts/benchmark-helix-v3-source-runtime.py:1282-1312 | an emitted event has a type, a decimal cursor, an object payload, and a run exactly when it is no chunk |
| SseFrames.FrameRoundTrip | scripts/benchmark-helix-v3-source-runtime.py:1254-1325 | an event printed as its canonical frame is read back as the same event |
| SseConsumer.Consumer.ConsumeBlock | scripts/benchmark-helix-v3-source-runtime.py:1254-1325 | a block is accepted exactly when it is sound, its cursor is larger than the last and the count stays in bounds |
| SseConsumer.Consumer.Feed | scripts/benchmark-helix-v3-source-runtime.py:1327-1348 | a line is accepted exactly when the stream so far fits the line, block and wire bounds |
| SseConsumer.Consumer.Consume | scripts/benchmark-helix-v3-source-runtime.py:1228-1349 | a stream is accepted if and only if every bound holds, no block is refused and the cursors strictly increase, and then the events are exactly those of its blocks |
| SseConsumer.AcceptedAtEveryPoint | scripts/benchmark-helix-v3-source-runtime.py:1327-1349 | an accepted stream shows no fault at any point, so refusing early refuses nothing acceptable |
| SseConsumer.FitsIff | scripts/benchmark-helix-v3-source-runtime.py:1333-1348 | the three counters stay in bounds if and only if the stream has at most 4 MiB, every line at most 256 KiB and every stretch without a blank line at most 1 MiB |
| SseConsumer.AcceptedIsPublic | scripts/benchmark-helix-v3-source-runtime.py:1276-1316 | every block with data of an accepted stream holds an envelope in which nothing tells of the private trace, and there are at most ten thousand events |
| SseReplay.ReplayRoundTrip | scripts/benchmark-helix-v3-source-runtime.py:1254-1349 | the events of an accepted stream, printed as canonical frames that fit the bounds, are accepted again as the same events |
| SseReplay.FindTerminal | scripts/benchmark-helix-v3-source-runtime.py:1357-1385 | a run is reported exactly when the last event shows it completed and names its own cursor as the last, and no status raises on the way |
| SseReplay.ProvenIff | scripts/benchmark-helix-v3-source-runtime.py:1357-1385 | a run is proven if and only if the last event shows it, in its payload, in the run there or in the run beside it, with this id, completed, and with that event's own cursor as its last |
| SseReplay.ConsumeFrontendSse | scripts/benchmark-helix-v3-source-runtime.py:1228-1385 | a report is returned if and only if the stream is accepted, no status raises and the last event proves the run completed with its own cursor, and it holds exactly the events and that run; no private trace is in any block then |
| PipScanner.ScanTail | docker/unsloth_pip_shim.py:1068-1216 | the loop with its two state variables computes the filter applied item by item to the parsed tail |
| PipScanner.KeptIsRendered | docker/unsloth_pip_shim.py:1068-1216 | the kept tokens are the surviving items written out in order |
| PipScanner.RecordedIsLastOrFirst | docker/unsloth_pip_shim.py:1081-1206 | the recorded version is that of the last positional pin if there is one, else that of the first flag or file |
| PipFates.TypedIsRead | docker/unsloth_pip_shim.py:1068-1186 | a token list typed as any of the six forms of item is read as that item |
| PipFates.FateIs | docker/unsloth_pip_shim.py:1068-1216 | reinstall and always-dropped flags, file flags with a URL, held flags with a protected target or none and protected names without extras go; everything else stays, as written but for filtered files and extras; with its report, pin and whether it installs anything |
| PipFates.ScanIs | docker/unsloth_pip_shim.py:1068-1216 | the kept tokens are exactly what remains, in order, everything else is reported, and there is a target if and only if something to install is left |
| PipFates.SurvivorIsKept | docker/unsloth_pip_shim.py:1068-1216 | an item that does not go stands in the kept tokens in one piece |
| PipFates.UnprotectedIsKept | docker/unsloth_pip_shim.py:1207-1216 | a package that is not protected is kept and is a target |
| PipReread.ParseRender | docker/unsloth_pip_shim.py:1068-1216 | written-out items are read back as themselves |
| PipReread.KeptRereads | docker/unsloth_pip_shim.py:1068-1216 | read again by the scanner's own rules, which do not stop at `--`, the kept tokens are exactly the surviving items: no flag captures a neighbour's token |
| PipReread.NothingProtectedKept | docker/unsloth_pip_shim.py:1187-1216 | nothing so read installs or upgrades a protected package except by extras |
| PipReread.InsertedIff | docker/unsloth_pip_shim.py:1254-1262 | a flag and value put into a command line are read as that pair, all else unchanged, if and only if the line before them does not end in a flag without its value |
| PipReread.InjectedIff | docker/unsloth_pip_shim.py:1254-1262 | the exact condition for the added constraint to be read as one, also before `--` |
| PipReread.InjectedForTail | docker/unsloth_pip_shim.py:1250-1262 | for a scanned tail without `--` the constraint is lost if and only if the tail ends in a flag without value |
| PipReread.InjectedForAnyTail | docker/unsloth_pip_shim.py:1250-1262 | for any tail the constraint is lost if and only if, among its surviving items, a flag stands without its value at the end, or takes the first `--` as its value |
| PipEndOfOptions.RealRender | docker/unsloth_pip_shim.py:1187-1216 | a tool that stops at `--` reads the surviving items up to the first `--` of its own, and every token after it as an operand |
| PipEndOfOptions.RealKeepsOutIff | docker/unsloth_pip_shim.py:1187-1216 | what such a tool reads installs nothing protected, except by extras, if and only if no surviving flag after the `--` has a value that names something protected |
| PipEndOfOptions.OperandGetsThrough | docker/unsloth_pip_shim.py:1187-1216 | `-- --proxy torch` is kept whole and installs `torch` |
| PipReread.ConstraintLost | docker/unsloth_pip_shim.py:1256-1262 | a `--` that is a flag's value makes that flag take `--constraint` |
| PipClusters.ExpandShortClusters | docker/unsloth_pip_shim.py:802-832 | the nested loops compute the expansion token by token |
| PipClusters.ExpandIdempotent | docker/unsloth_pip_shim.py:802-832 | expanding again changes nothing: no cluster is left |
| PipClusters.MeaningKeptIff | docker/unsloth_pip_shim.py:802-815 | under the getopt reading the expanded line means the same if and only if no separated value or operand looks like a cluster and no cluster holds a second dash |
| PipClusters.ValueTornApart | docker/unsloth_pip_shim.py:802-815 | `-r -qx` means something else after expansion |
| RequirementsLines.LogicalLines | docker/unsloth_pip_shim.py:505-523 | the groups concatenate to the file, and each is a whole logical line, except perhaps a last one left open |
| RequirementsLines.ContinuesIff | docker/unsloth_pip_shim.py:515-519 | with any white space around it, a line goes on if and only if it ends in a backslash and is no comment |
| RequirementsLines.ReadBackIff | docker/unsloth_pip_shim.py:505-523 | groups written out are read back as themselves if and only if each but the last is a whole logical line |
| RequirementsLines.SurvivorsReadBack | docker/unsloth_pip_shim.py:580-634 | after dropping and replacing whole groups the file has exactly the surviving logical lines: no orphaned continuation |
| RequirementsLines.LoudReplacementSwallows | docker/unsloth_pip_shim.py:617-631 | a replacement that ends in a backslash joins the next logical line |
| RequirementsText.CopyReadsAsDecided | docker/unsloth_pip_shim.py:579-641 | the text of the copy, cut into logical lines and read, is exactly the lines decided on, if each new line is whole and reads back |
| RequirementsText.ExtrasLoudIff | docker/unsloth_pip_shim.py:418-441 | the extras of a struck request go on into the next line if and only if their marker ends in a backslash |
| RequirementsText.IncludeLoudIff | docker/unsloth_pip_shim.py:472-502 | a rewritten include goes on into the next line if and only if it has no comment and its new target ends in a backslash |
| RequirementsText.LoudReplacementWritten | docker/unsloth_pip_shim.py:611-633 | a line for which such extras are written |
| RequirementsFilter.LeftIsStruck | docker/unsloth_pip_shim.py:557-649 | following includes and striking requests commute: down to the filtered depth the result asks for exactly the surviving requests |
| RequirementsShelter.CleanIffSheltered | docker/unsloth_pip_shim.py:557-649 | for every set of files, path, filtered depth and depth of reading, also with includes over two lines: what is left is what striking every request leaves if and only if nothing to be struck stands beyond what is followed and no include is diverted |
| RequirementsShelter.ShallowIsSheltered | docker/unsloth_pip_shim.py:557-649 | without includes over two lines that always holds down to the filtered depth |
| RequirementsShelter.MovedIsLost | docker/unsloth_pip_shim.py:597-599 | a relative include over two lines in a copied file never holds it, if no file waits for it where the copies lie |
| RequirementsFilter.OnlyKeptRequestsLeft | docker/unsloth_pip_shim.py:611-633 | every request left is one the policy keeps, or the extras of a struck one |
| RequirementsFilter.DeepRequestSurvives | docker/unsloth_pip_shim.py:494-502 | behind more includes than are followed, a request survives as written |
| RequirementsReports.EightIncludesIff | docker/unsloth_pip_shim.py:494-502 | along a chain of includes a protected request is struck if and only if it stands behind at most eight |
| RequirementsFilter.JoinedIncludeSurvives | docker/unsloth_pip_shim.py:597-599 | an include over two physical lines is not followed |
| RequirementsFilter.JoinedRelativeIncludeMoves | docker/unsloth_pip_shim.py:597-599 | in a copy such an include with a relative target points somewhere else |
| RequirementsStore.UnchangedIsLeft | docker/unsloth_pip_shim.py:636-637 | a file that needs no change is left as it is with all it includes |
| RequirementsStore.Store.RewriteInclude | docker/unsloth_pip_shim.py:472-502 | an include line comes to stand for what is left of the file it named, resolved against the file it was read in |
| RequirementsStore.Store.FilterLine | docker/unsloth_pip_shim.py:579-634 | each logical line becomes what should be left of it, with its pin and its report |
| RequirementsStore.Store.Filter | docker/unsloth_pip_shim.py:557-649 | ends on cyclic includes; the caller's files stay as they are, the result asks for exactly what should be left at any depth of reading, a copy is made only if needed, and the first install pin and all struck lines are reported |
| RequirementsReports.StrikesAreActs | docker/unsloth_pip_shim.py:557-649 | what is struck is exactly what the policy acts on in the reading of everything followed, in order, each with whether a constraints file led to it |
| RequirementsReports.FirstPinIs | docker/unsloth_pip_shim.py:497-500 | the version recorded is the first pin that did not come by way of a constraints file |
| RequirementsReports.DroppedIs | docker/unsloth_pip_shim.py:573-633 | every strike that leaves no extras is reported, each in its place |
| ToolLedger.AcceptableIsLedger | scripts/benchmark-helix-v3-tool-scenarios.py:1370-1702 | the count, uniqueness and order checks together imply the one-to-one correspondence of fixture positions, proposals, rows, receipts and ends, with no orphan event |
| ToolLedger.LedgerIsAcceptable | scripts/benchmark-helix-v3-tool-scenarios.py:1370-1702 | every such correspondence passes the checks |
| ToolLedger.LedgerAt | scripts/benchmark-helix-v3-tool-scenarios.py:1370-1702 | position by position: the fixture's command was proposed, claimed, started, finished and ended in this order, by one sound row that agrees with every event, all before the trace and the completion |
| ToolLedger.LedgerHoldsNoOther | scripts/benchmark-helix-v3-tool-scenarios.py:1370-1702 | every ledger event is one of those, approvals and ambiguous events do not occur, and the trace and the completion are the last two |
| ToolLedgerVerifier.SortRows | scripts/benchmark-helix-v3-tool-scenarios.py:1423-1429 | the rows are permuted into the order of their proposals |
| ToolLedgerVerifier.CheckLedger | scripts/benchmark-helix-v3-tool-scenarios.py:1370-1702 | the verifier accepts exactly what the checks allow, for some arrangement of the rows |
| ToolLedgerVerifier.AcceptLedger | scripts/benchmark-helix-v3-tool-scenarios.py:1370-1702 | a run is accepted if and only if some arrangement of its rows is a ledger |
| KwargsSpacing.PaddedAt | scripts/enforce_kwargs_spacing.py:66-90 | every original character stands where the gaps before it put it, so the running offset lands on the original `=` |
| KwargsSpacing.PaddingIsReversible | scripts/enforce_kwargs_spacing.py:53-99 | deleting the inserted spaces gives back the line |
| KwargsSpacing.NoLongerMissing | scripts/enforce_kwargs_spacing.py:78-90 | afterwards each `=` token has white space on both sides |
| KwargsSpacing.SecondPassChangesNothing | scripts/enforce_kwargs_spacing.py:53-99 | a second pass over the moved tokens inserts nothing |
| KwargsSpacing.LeastInsertion | scripts/enforce_kwargs_spacing.py:78-90 | no insertion of spaces that leaves nothing missing does with less |
| KwargsSpacing.EnforceSpacing | scripts/enforce_kwargs_spacing.py:53-99 | for any lines and ordered tokens, also misplaced ones, the loop with one offset per line equals one simultaneous insertion, and reports change exactly when there is one |
| StringMerging.JoinKeepsValueIff | scripts/enforce_kwargs_spacing.py:366-397 | two bodies joined mean what they meant one after the other if and only if no open octal escape meets a digit |
| StringMerging.DoublingIsUndone | scripts/enforce_kwargs_spacing.py:393-396 | reading a body with doubled braces as an f-string gives what it meant as a plain string |
| StringMerging.MergeRun | scripts/enforce_kwargs_spacing.py:366-397 | which runs are merged, and into what |
| StringMerging.MergeKeepsValueIff | scripts/enforce_kwargs_spacing.py:366-397 | a merged literal means what the run meant if and only if nothing leaks at a seam |
| StringMerging.MergeCanChangeValue | scripts/enforce_kwargs_spacing.py:366-397 | a run of two literals whose merge means something else |
| LineEdits.ApplyEdits | scripts/enforce_kwargs_spacing.py:481-484 | non-overlapping edits made from right to left equal the same edits made at once |
| Ssim.BoxMeanIsWindowMean | scripts/diffusion_quality.py:67-77 | for every non-empty image and window the integral image gives the sum over the edge-clamped window |
| Ssim.LocalStatistical | scripts/diffusion_quality.py:89-93 | local variances are non-negative and bound the covariance |
| Ssim.SsimAtBounds | scripts/diffusion_quality.py:94-97 | each entry of the map lies in [-1, 1], and is 1 where the images are identical |
| SsimIdentity.SsimAtIsOneIff | scripts/diffusion_quality.py:94-97 | an entry is 1 if and only if the two images agree on its edge-clamped window |
| SsimIdentity.EqualMeans | scripts/diffusion_quality.py:88-97 | where the means agree, an entry is the contrast and structure term, with 58.5225 |
| SsimIdentity.FlatWindows | scripts/diffusion_quality.py:88-97 | where nothing varies, an entry is the luminance term, with 6.5025 |
| Ssim.SimilarityRange | scripts/diffusion_quality.py:80-98 | the similarity lies in [-1, 1] and is 1 on identical images |
| SsimIdentity.SimilarityIsOneIff | scripts/diffusion_quality.py:80-98 | the similarity is 1 if and only if the two are the same image |
| Ssim.SimilaritySymmetric | scripts/diffusion_quality.py:80-98 | swapping the images does not change it |
| OverlayManifest.CanonicalIff | scripts/apply_helix_backend_overlay.py:28-37 | the path test admits exactly the relative paths without empty, `.` and `..` components, and `.` itself |
| OverlayManifest.StreamInjective | scripts/apply_helix_backend_overlay.py:41-41 | the hashed stream of paths and hashes decodes in one way, newlines in paths included |
| OverlayManifest.DigestsAgreeIff | scripts/apply_helix_backend_overlay.py:41-68 | two digests agree if and only if every listed file has the same bytes |
| OverlayManifest.InstalledDigest | scripts/apply_helix_backend_overlay.py:49-68 | there is a digest exactly when every listed file is a regular one |
| OverlayManifest.ManifestFiles | scripts/apply_helix_backend_overlay.py:13-46 | an overlay is accepted exactly when its count, paths, files and digest are as listed, no path twice |
| OverlayManifest.NothingElseChanges | scripts/apply_helix_backend_overlay.py:204-210 | the staged tree holds every path of the installation, and keeps the bytes of what the overlay does not own |
| OverlayManifest.CurrentIff | scripts/apply_helix_backend_overlay.py:192-193 | a tree is taken for current if and only if each owned file is regular and has the overlay's bytes |
| OverlayManifest.NextRunIsCurrentIff | scripts/apply_helix_backend_overlay.py:192-211 | after a successful overlay the next run finds the tree current, unless the manifest lists the runtime manifest with other bytes |
| OverlayActivation.MoveKeeps | scripts/apply_helix_backend_overlay.py:116-144 | a rename takes the original directory along or leaves it alone |
| OverlayActivation.StudioRoot.RestoreBackup | scripts/apply_helix_backend_overlay.py:116-124 | the rollback succeeds exactly when both renames do; otherwise the original stays under the backup name |
| OverlayActivation.StudioRoot.ActivateStage | scripts/apply_helix_backend_overlay.py:127-144 | at every step the original is intact under exactly one of the two names; a normal return swaps in the validated stage; after a failure the original is back exactly when the rollback renames worked |
| OverlayActivation.StudioRoot.FillStage | scripts/apply_helix_backend_overlay.py:206-210 | the stage becomes the copy with the overlay's files and the runtime manifest, the original untouched beside it |
| OverlayActivation.StudioRoot.Apply | scripts/apply_helix_backend_overlay.py:180-216 | nothing happens without an acceptable manifest; a current tree only gets its runtime manifest, and with all operations working the validator alone decides whether it is called current; otherwise the original survives every step until success, and with all renames working the validator alone decides and no other directory remains |
| OverlayActivation.RunTwice | scripts/apply_helix_backend_overlay.py:180-216 | the start after one that applied the overlay finds it current, exactly unless the manifest lists the runtime manifest with other bytes |
| NpmReachability.AncestorsAreAbove | scripts/check_frontend_dep_removal.py:148-158 | every place tried lies in the parent or in a directory above it |
| NpmReachability.DeeperIsLonger | scripts/check_frontend_dep_removal.py:148-158 | the places are tried from the deepest to the shallowest |
| NpmReachability.Deepest | scripts/check_frontend_dep_removal.py:148-158 | the copy found is the deepest one, and none is found only if no place has one |
| NpmReachability.ResolveInstallPath | scripts/check_frontend_dep_removal.py:148-158 | the loop finds that copy |
| NpmReachability.LeastIsReached | scripts/check_frontend_dep_removal.py:174-196 | the least closed set is exactly what chains of dependencies reach from the roots, so no visiting order matters |
| NpmReachability.KeptBecause | scripts/check_frontend_dep_removal.py:174-196 | a package is kept if and only if a top-level name, or a plain, optional or non-optional peer dependency of a kept package, resolves to it |
| NpmReachability.FewerRootsReachLess | scripts/check_frontend_dep_removal.py:174-196 | removing top-level packages never keeps more alive |
| NpmReachability.ReachableFromHead | scripts/check_frontend_dep_removal.py:174-196 | the worklist ends with the least set holding the resolved roots and closed under dependencies |
| ImportLint.FirstComponentIs | scripts/lint_duplicate_definitions.py:262-262 | the name a plain import binds is what stands before the first dot |
| ImportLint.SilentIffNoClash | scripts/lint_duplicate_definitions.py:264-288 | a body has no finding if and only if no two of its imports clash, although only unreported ones are remembered |
| ImportLint.FirstReportIsFirstClash | scripts/lint_duplicate_definitions.py:264-288 | the first finding is the first import that clashes with anything before it |
| ImportLint.ReportedPlusRemembered | scripts/lint_duplicate_definitions.py:285-288 | every import is reported or remembered, never both |
| ImportLint.ReportedIff | scripts/lint_duplicate_definitions.py:264-288 | an import is reported if and only if it chooses a name already bound, or its name was first bound by choice, or came unchosen from the same source before |
| ImportLint.UnreportedIff | scripts/lint_duplicate_definitions.py:264-288 | the clashes that go unreported, exactly: an unchosen name from a new source after a first unchosen and a later chosen binding |
| ImportLint.ClashUnreported | scripts/lint_duplicate_definitions.py:264-288 | three imports of which the last clashes with the reported second and is not reported |
| ImportLint.SilentIffClean | scripts/lint_duplicate_definitions.py:239-288 | a module has no finding if and only if no body in it, at any depth, has a clash |
| ImportLint.LookupFinds | scripts/lint_duplicate_definitions.py:265-273 | the dictionary look-ups find an earlier import exactly when a remembered one clashes |
| ImportLint.Scan.ImportDuplicates | scripts/lint_duplicate_definitions.py:239-288 | the scan appends exactly the findings of the body, nested bodies in place |
| ImportLint.KeyTellsApart | scripts/lint_duplicate_definitions.py:281-281 | equal identities come from one scope, source and name |
| ImportLint.Compare | scripts/lint_duplicate_definitions.py:585-597 | per identity the blocking findings are what the head has beyond the base, and blocking and existing together are the head's |
| ImportLint.PassesIff | scripts/lint_duplicate_definitions.py:585-597 | the comparison passes if and only if no identity is found more often than before |
| SourceIdentity.ComputeIdentity | scripts/helix-v3-source-identity.py:358-403 | the digest, count and links are those of the included regular files; anything else in the list makes it fail |
| SourceIdentity.SameIdentityIff | scripts/helix-v3-source-identity.py:369-385 | two snapshots have one digest if and only if the same files take part with the same bytes |
| SourceIdentity.LinksAre | scripts/helix-v3-source-identity.py:371-377 | the links reported are exactly the included paths that are links, in order |
| SourceIdentity.StatusCount | scripts/helix-v3-source-identity.py:308-349 | the index-driven loop counts record by record, a renamed record together with the one after it |
| SourceIdentity.EveryChangeCountsOnce | scripts/helix-v3-source-identity.py:308-349 | from the records git writes every relevant change is counted once, whatever an old path looks like |
| SourceIdentity.RefusedIff | scripts/helix-v3-source-identity.py:308-349 | a record makes the count fail if and only if it is neither empty nor a header nor a change at a valid path; any other adds one exactly if its path counts |

## Left out

- Files, directories, owners and modes, temporary names, fsync and timeouts: the models keep contents and what
  can fail.
- The launch command, HTTP, login, `ps` and `lsof` text, SQLite: only the records they deliver are modelled.
- The payload schemas of ledger rows and traces: each is one flag that says whether the row or trace is well formed.
- `aggregate_trace_events`, `reconstruct_visible_answer`: they check one event at a time, but for unique ids and links
  to earlier ones, and add up independent counters and pieces of text.
- `_canon`, `_is_protected`, `_version_pin`, `_extras_only_target` and environment references: functions the shim's
  models take as parameters.
- `_install_index`, `_positionals`, `_installs_elsewhere`, `UV_WORKING_DIR`: table look-ups before the scan.
- The definition half of the duplicate lint (`_scope_duplicates`), text of messages, and the sort of findings.
- The tokenizer, and the guards of the source rewriters that compare syntax trees.
- Line-length decisions of `_fold_collapses`; PSNR, CLIP and rounding in the image metrics.
- StringMerging.MergeKeepsValueIff: named escapes (`\N{...}`) and a backslash before a line end are not well-formed
  bodies here; braces inside a replacement field are taken to balance.
- RequirementsStore.Store.Filter: the failure to write a copy, which ends the shim, is not modelled.
- OverlayActivation.StudioRoot.Apply: an interrupt between two statements is not a step of its own; the state it
  would leave is one of those the history records.
- Ssim.SimilarityRange: over the reals, so rounding of the floating-point sums is not modelled.
- SseConsumer.Consumer.Consume: which of the error texts is raised; the decoding of bytes and ids longer than the
  interpreter's integer limit are not modelled.
- SourceIdentity.ComputeIdentity: files that change while they are hashed.
- NotebookCleaning.StageClean: a "source" list with an item that is no text, on which the strip raises, is not modelled;
  the notebook format allows only texts there.
- Termination.Harness.TerminateOwned: a `kill` or `killpg` the kernel refuses and the texts of the reasons are not
  modelled; `poll` and the `kill` after it in `send_signal` are one step.
- RequirementsText.CopyReadsAsDecided: how a logical line is parsed is a parameter.
