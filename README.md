# Celeste Android porting layer: a Dafny model

This project models the core of the layer that lets the PC game Celeste run on Android
under MonoGame. Five parts of it are modelled and proved:

- **ContentValidator** (`content_validator.dfy`). A read-only check run at start-up. It
  checks that the content root exists, can be listed and is not empty. It then checks
  that `Dialog`, `Effects` (with at least one `.xnb` file below it) and `Graphics` are
  present under their exact names. It reports a folder found under another case, and
  optionally checks `FMOD`. Its result is a report (`OK` / `INCOMPLETO` plus the list of
  problems), or an exception. The exception comes when a required directory exists but cannot
  be listed. It also comes when the recursive search below `Dialog` or `Effects` opens a
  directory that cannot be listed before it finds a match.
- **BootManagerMonoGame** (`boot_manager.dfy`). The state machine (Running, ContentMissing,
  Fatal) that holds the game loop while the content is missing or after a fatal error.
  Each frame it:
  - advances the diagnostics hold timer;
  - validates on the first frame;
  - re-validates on a retry request;
  - passes an exit request on to the engine.

  It also lays out the problem list on the error screen.
- **UserIO** (`user_io.dfy`). The durable save store:
  - every write goes to `<path>.tmp`, which is then renamed over the target;
  - a save is written to `Backups/<name>.celeste` first, decoded again, and only then
    written to `<name>.celeste`.

  It also models the handshake between the `SaveRoutine` coroutine, the `SaveHandler`
  entry point and the `SaveThread` worker, which are coordinated through the `Saving`,
  `savingInternal` and `SavingResult` flags.
- **RootRedirectFileSystem** (`root_redirect.dfy`). The file system the game sees. It
  resolves relative paths under the content root (`Content/...`), the save root
  (`Save/...`, `Saves/...`) or the base data root, and uses rooted paths as given. Its
  writing operations create the missing parent directory first.
- **PixelFont** (`pixel_font.dfy`). The 5x7 bitmap font of the error and diagnostics
  screens:
  - glyph rows are packed into bytes, leftmost column in the highest of the five low bits;
  - `DrawChar` draws a `scale` x `scale` square for each lit bit;
  - `DrawString` moves a pen across the text (`\r` skipped, `\n` returns to the left
    margin one line lower);
  - `Measure` gives the box of the longest line times the number of lines.

Two support modules give the platform semantics these parts rely on:

- `paths.dfy`: `Path.Combine`, `GetFileName` and ordinal case-insensitive comparison,
  with '/' as the only separator, and `GetDirectoryName` on paths without repeated
  separators (the part before the last '/').
- `disk.dfy`: a volume of directories (in listing order), files with their bytes,
  read-only and unlistable directories. The System.IO calls on it return `None` when
  they throw. `Directory.EnumerateFiles(dir, pattern, SearchOption.AllDirectories).Any()`
  is a breadth-first walk (`FindFileBeneath`):
  - it opens `dir`, then the directories below it level by level, each level in listing order;
  - a directory's own files are looked at before the next directory is opened;
  - it stops at the first match;
  - its default options skip no inaccessible entry, so opening a directory that cannot be
    listed throws.

A sequence of calls that may throw midway is described by an `Effect(after, completed)`:
the state it leaves behind, and whether it ran to the end.

Where the source changes state in place, the model does too:

- `BootManagerMonoGame`, `SaveHandshake`, `RootRedirectFileSystem`, `FileSystem` and
  `PixelFont` are classes with fields.
- Their methods are proved to perform exactly one step of a pure function of the old
  state (`Updated`, `Stepped`, `MoveEffect`, `Layout`, ...).
- The lemmas state what those steps guarantee.

The loops of the source are loops of the model:
- Validate's directory loop;
- the problem list;
- `Add`'s bit packing;
- DrawChar's row and column loops;
- DrawString's pen loop;
- Measure's longest-line loop.

## Model

| member | source | states |
|---|---|---|
| ContentValidator.Required.Name | src/Celeste.Core/Source/Porting/ContentValidator.cs:12-17 | each required directory has a non-empty single-segment name |
| ContentValidator.Required.Index | src/Celeste.Core/Source/Porting/ContentValidator.cs:12-17 | each required directory has a position in the fixed checking order Dialog, Effects, Graphics |
| ContentValidator.Problem.Rank | src/Celeste.Core/Source/Porting/ContentValidator.cs:50-97 | every problem concerns the root (-1), one of the three required directories (0-2) or FMOD (3) |
| ContentValidator.Then | src/Celeste.Core/Source/Porting/ContentValidator.cs:50-84 | the loop's exception propagates: a scan throws iff either part throws, and the first exception wins |
| ContentValidator.FirstIgnoringCaseNone | src/Celeste.Core/Source/Porting/ContentValidator.cs:104-116 | the case-insensitive search finds nothing iff no directory name matches ignoring case |
| ContentValidator.FirstIgnoringCaseSome | src/Celeste.Core/Source/Porting/ContentValidator.cs:104-116 | when it finds one, it is the earliest matching directory in listing order |
| ContentValidator.SiblingIgnoringCaseFinds | src/Celeste.Core/Source/Porting/ContentValidator.cs:104-116 | a found directory is an immediate child of the parent matching the name; nothing is found iff the listing throws (swallowed) or no child matches |
| ContentValidator.FindDirectoryCaseInsensitive | src/Celeste.Core/Source/Porting/ContentValidator.cs:104-116 | the loop over the subdirectories returns the first case-insensitive match, or null when the listing fails or nothing matches |
| ContentValidator.CheckDirectory | src/Celeste.Core/Source/Porting/ContentValidator.cs:52-83 | one iteration of the loop: the directory's content check, or the case-mismatch / missing problem; or the exception of its listing, or of the recursive search below Dialog or Effects at the first unlistable directory it opens |
| ContentValidator.ScanContentTree | src/Celeste.Core/Source/Porting/ContentValidator.cs:50-101 | the loop over Dialog, Effects, Graphics, then the FMOD check, then the verdict |
| ContentValidator.Validate | src/Celeste.Core/Source/Porting/ContentValidator.cs:19-102 | Validate's whole sequence: root checks that stop at the first defect, the scan, the verdict, or an escaping exception |
| ContentValidator.AbortPersists | src/Celeste.Core/Source/Porting/ContentValidator.cs:50-84 | an exception in one directory's check ends every longer scan with that exception |
| ContentValidator.MisnamedRank | src/Celeste.Core/Source/Porting/ContentValidator.cs:74-83 | a misnamed directory's problem is about that directory |
| ContentValidator.CheckRequiredRanked | src/Celeste.Core/Source/Porting/ContentValidator.cs:52-83 | a required directory yields at most one problem, about itself |
| ContentValidator.CheckRequiredThrows | src/Celeste.Core/Source/Porting/ContentValidator.cs:52-83 | a directory's check throws iff it exists under its exact name and is blocked (cannot be listed, or its search meets an unlistable directory before a match); the exception names an unlistable directory at or below it |
| ContentValidator.BlockedBounds | src/Celeste.Core/Source/Porting/ContentValidator.cs:52-72 | a required directory that cannot be listed is always blocked, and one below which every directory can be listed never is |
| ContentValidator.LockedEffectsSubdirectoryThrows | src/Celeste.Core/Source/Porting/ContentValidator.cs:56-60 | with no .xnb of its own, an Effects directory whose first subdirectory cannot be listed makes Validate throw at that subdirectory, whatever it holds |
| ContentValidator.ScanRequiredUnrolled | src/Celeste.Core/Source/Porting/ContentValidator.cs:12-17 | the required directories are checked in the order Dialog, Effects, Graphics |
| ContentValidator.ScanThrows | src/Celeste.Core/Source/Porting/ContentValidator.cs:50-84 | the scan throws iff some directory's check throws |
| ContentValidator.ScanIncludes | src/Celeste.Core/Source/Porting/ContentValidator.cs:50-84 | a completed scan contains every problem of every checked directory |
| ContentValidator.FullScanValidation | src/Celeste.Core/Source/Porting/ContentValidator.cs:19-102 | once the root passes its checks, Validate is exactly the scan of the content directory |
| ContentValidator.RootDefectStops | src/Celeste.Core/Source/Porting/ContentValidator.cs:23-47 | missing services, an absent, unlistable or empty root: not ok, one problem about the root, a summary other than OK/INCOMPLETO |
| ContentValidator.ThrowsExactly | src/Celeste.Core/Source/Porting/ContentValidator.cs:19-102 | Validate throws iff the root passes and a required directory exists and is blocked |
| ContentValidator.ScanThrowsExactly | src/Celeste.Core/Source/Porting/ContentValidator.cs:50-101 | the same, for the scan of the content directory |
| ContentValidator.OkExactlyWhenNoProblems | src/Celeste.Core/Source/Porting/ContentValidator.cs:99-101 | ok iff no problems iff summary "OK"; summaries OK/INCOMPLETO occur iff the full scan ran |
| ContentValidator.ScanContentProblems | src/Celeste.Core/Source/Porting/ContentValidator.cs:50-101 | the problem list is Dialog's, Effects', Graphics' and then FMOD's problems, in that order |
| ContentValidator.ProblemsRanked | src/Celeste.Core/Source/Porting/ContentValidator.cs:50-101 | after a full scan there are at most four problems, at most one per directory, in checking order |
| ContentValidator.ScanRanked | src/Celeste.Core/Source/Porting/ContentValidator.cs:50-101 | the same for the scan of the content directory |
| ContentValidator.AudioRanked | src/Celeste.Core/Source/Porting/ContentValidator.cs:86-97 | the FMOD check yields at most one problem, about FMOD |
| ContentValidator.RankedFour | src/Celeste.Core/Source/Porting/ContentValidator.cs:50-97 | one problem at most per directory, concatenated in checking order, are in order |
| ContentValidator.RankedConcat | src/Celeste.Core/Source/Porting/ContentValidator.cs:50-97 | appending the problem of a later directory keeps the list in order |
| ContentValidator.MissingDirectoryReported | src/Celeste.Core/Source/Porting/ContentValidator.cs:74-83 | a required directory absent under its exact name is reported, as a case mismatch naming the found folder or as missing |
| ContentValidator.EffectsWithoutBinariesReported | src/Celeste.Core/Source/Porting/ContentValidator.cs:56-60 | an Effects directory with no .xnb file below it is reported |
| ContentValidator.AudioOnlyAppends | src/Celeste.Core/Source/Porting/ContentValidator.cs:86-97 | requireAudio only appends the FMOD problem; it changes neither whether Validate throws nor the other problems |
| ContentValidator.ScanAudioAppends | src/Celeste.Core/Source/Porting/ContentValidator.cs:86-97 | the same for the scan of the content directory |
| ContentValidator.OkIffComplete | src/Celeste.Core/Source/Porting/ContentValidator.cs:19-102 | Validate says OK with no problems only when the root is sound and the tree is complete: every required directory (and FMOD when required) present and filled, and neither search blocked; on a grounded volume it says OK for every such tree |
| ContentValidator.ListablePresentComplete | src/Celeste.Core/Source/Porting/ContentValidator.cs:52-72 | a present tree that can be listed throughout below Dialog and Effects is complete |
| ContentValidator.ScanOkIffComplete | src/Celeste.Core/Source/Porting/ContentValidator.cs:50-101 | the same two directions for the scan of the content directory |
| ContentValidator.CleanComplete | src/Celeste.Core/Source/Porting/ContentValidator.cs:50-101 | a clean scan implies a complete tree |
| ContentValidator.CompleteClean | src/Celeste.Core/Source/Porting/ContentValidator.cs:50-101 | on a grounded volume a complete tree gives a clean scan |
| ContentValidator.AudioClean | src/Celeste.Core/Source/Porting/ContentValidator.cs:86-97 | no FMOD problem means FMOD exists whenever it is required |
| ContentValidator.RequiredClean | src/Celeste.Core/Source/Porting/ContentValidator.cs:52-70 | a directory without problems exists, can be listed, was not blocked and holds its minimum content (.xnb for Effects, a file for Dialog, an entry for Graphics) |
| Disk.FindFileBeneathSound | src/Celeste.Core/Source/Porting/ContentValidator.cs:56-65 | the recursive search finds only a real matching file below the directory, and throws only at an unlistable directory at or below it |
| Disk.ListableTreeNotDenied | src/Celeste.Core/Source/Porting/ContentValidator.cs:56-65 | below a tree that can be listed throughout the search never throws |
| Disk.FindFileBeneathComplete | src/Celeste.Core/Source/Porting/ContentValidator.cs:56-65 | on a grounded volume a search that ends without a match means there is no matching file below the directory |
| Disk.FindFileBeneathExact | src/Celeste.Core/Source/Porting/ContentValidator.cs:56-65 | on a grounded volume, below a tree that can be listed throughout, the search finds a file iff there is one |
| Disk.OwnFileFound | src/Celeste.Core/Source/Porting/ContentValidator.cs:56-65 | a match inside the directory itself is found before any subdirectory is opened |
| Disk.FirstSubdirectoryDenied | src/Celeste.Core/Source/Porting/ContentValidator.cs:56-65 | with no match of its own, the first subdirectory in listing order is opened next and the search throws there when it cannot be listed |
| BootManager.BootManagerMonoGame.constructor | src/Celeste.Core/Source/Porting/BootManagerMonoGame.cs:37-48 | a new manager is in ContentMissing with summary "N/A" and blocks the game loop |
| BootManager.BootManagerMonoGame.IsBlockingGameLoop | src/Celeste.Core/Source/Porting/BootManagerMonoGame.cs:40 | the game loop is held in every state but Running, the same test `Blocking` applies to the snapshot the step lemmas are stated on |
| BootManager.BootManagerMonoGame.EnterFatal | src/Celeste.Core/Source/Porting/BootManagerMonoGame.cs:50-58 | the fields change exactly as the EnterFatal step says |
| BootManager.BootManagerMonoGame.TryRevalidate | src/Celeste.Core/Source/Porting/BootManagerMonoGame.cs:60-85 | the fields and the result are exactly those of one re-validation against the given services |
| BootManager.BootManagerMonoGame.Update | src/Celeste.Core/Source/Porting/BootManagerMonoGame.cs:87-133 | the fields and the exit request are exactly those of one frame's step |
| BootManager.InitialBlocks | src/Celeste.Core/Source/Porting/BootManagerMonoGame.cs:37-48 | a fresh manager blocks the loop, has not validated and lists no problems |
| BootManager.FatalizedRecords | src/Celeste.Core/Source/Porting/BootManagerMonoGame.cs:50-58 | EnterFatal moves to Fatal from any state, records the message (default "ERRO FATAL") and the error, and keeps everything else |
| BootManager.RevalidatedOutcome | src/Celeste.Core/Source/Porting/BootManagerMonoGame.cs:60-85 | returns true iff the validator says OK, iff the state becomes Running; a report is copied into problems and summary; an exception turns the manager Fatal with no problems |
| BootManager.RunningMeansNoProblems | src/Celeste.Core/Source/Porting/BootManagerMonoGame.cs:60-85 | after a re-validation, Running implies an empty problem list |
| BootManager.ValidatorSummaryIsNotPending | src/Celeste.Core/Source/Porting/ContentValidator.cs:19-102 | the validator never returns the summary "N/A", so the first-validation test fires once |
| BootManager.NoEngineNoChange | src/Celeste.Core/Source/Porting/BootManagerMonoGame.cs:89-90 | without an engine Update changes nothing and asks for no exit |
| BootManager.HoldTimerBounded | src/Celeste.Core/Source/Porting/BootManagerMonoGame.cs:97-108 | after a frame the hold timer is below 2 s; diagMode flips iff the key is held and the timer reaches 2 s; releasing the key resets it |
| BootManager.RevalidationKeepsHold | src/Celeste.Core/Source/Porting/BootManagerMonoGame.cs:60-85 | validation touches neither the hold timer nor the diagnostics mode |
| BootManager.FatalAbsorbing | src/Celeste.Core/Source/Porting/BootManagerMonoGame.cs:125-132 | Fatal is never left, its message and problems stay, and exit is passed on iff requested |
| BootManager.RunningStable | src/Celeste.Core/Source/Porting/BootManagerMonoGame.cs:111-132 | in Running, Update neither validates, nor leaves Running, nor asks to exit |
| BootManager.FirstValidationOnce | src/Celeste.Core/Source/Porting/BootManagerMonoGame.cs:111-112 | after the first frame in ContentMissing the summary is a verdict, or the manager is Fatal |
| BootManager.NoRetryNoValidation | src/Celeste.Core/Source/Porting/BootManagerMonoGame.cs:111-124 | once validated, a frame without retry keeps the state, problems and summary |
| BootManager.RetryRevalidates | src/Celeste.Core/Source/Porting/BootManagerMonoGame.cs:114-118 | a retry in ContentMissing gives exactly the state, problems and summary of TryRevalidate |
| BootManager.ExitHonoured | src/Celeste.Core/Source/Porting/BootManagerMonoGame.cs:114-132 | exit is requested only while the loop is blocked, and always when the user asks in Fatal or in a validated ContentMissing |
| BootManager.ListProblems | src/Celeste.Core/Source/Porting/BootManagerMonoGame.cs:186-196 | the list loop draws exactly the listing, and the footer goes where FooterY says |
| BootManager.ListingShape | src/Celeste.Core/Source/Porting/BootManagerMonoGame.cs:186-194 | at most ten problems are shown, in order, each as "- " + problem; "..." appears iff there are more than ten |
| BootManager.FooterBelowList | src/Celeste.Core/Source/Porting/BootManagerMonoGame.cs:186-196 | lines go down in steps of 20 from y = 140; the footer is below every line and never above 360 |
| UserIO.RootDir | src/Celeste.Core/Source/Celeste/UserIO.cs:151-158 | the root is never empty, and it is "Save" iff the configured save path is missing, empty or "Save" |
| UserIO.GetHandle | src/Celeste.Core/Source/Celeste/UserIO.cs:175-178 | for a save name without separators and a root without a trailing one, the handle is the file `<name>.celeste` directly in the root |
| UserIO.GetBackupHandle | src/Celeste.Core/Source/Celeste/UserIO.cs:180-183 | under the same conditions, the backup handle is the file `<name>.celeste` directly in `<root>/Backups` |
| UserIO.HandlesDistinct | src/Celeste.Core/Source/Celeste/UserIO.cs:175-183 | the primary, the backup and their .tmp files are four different paths in the expected directories |
| UserIO.AtomicWriteBytes | src/Celeste.Core/Source/Celeste/UserIO.cs:190-204 | the volume and the completion flag are exactly those of the create-directory, write .tmp, delete, rename sequence |
| UserIO.TempSuffixPlain | src/Celeste.Core/Source/Celeste/UserIO.cs:195 | the .tmp file is a different path in the same directory |
| UserIO.AtomicWriteFrame | src/Celeste.Core/Source/Celeste/UserIO.cs:190-204 | only the target and its .tmp change; no directory is removed, no permission changes |
| UserIO.AtomicWriteCompletes | src/Celeste.Core/Source/Celeste/UserIO.cs:190-204 | a completed atomic write leaves exactly the data at the target, no .tmp file, and the directory in place |
| UserIO.AtomicWriteConsistent | src/Celeste.Core/Source/Celeste/UserIO.cs:190-204 | the atomic write never makes a path both a file and a directory |
| UserIO.AtomicWriteAllOrNothing | src/Celeste.Core/Source/Celeste/UserIO.cs:190-204 | an atomic write that throws leaves the target's old content (or its absence) |
| UserIO.Load | src/Celeste.Core/Source/Celeste/UserIO.cs:242-263 | null when the chosen file (primary, or backup when asked) is missing; otherwise whatever its bytes decode to, null when they do not |
| UserIO.Save | src/Celeste.Core/Source/Celeste/UserIO.cs:206-240 | the volume and the result are exactly those of the Save sequence, with any exception turned into false |
| UserIO.SaveRoundTrip | src/Celeste.Core/Source/Celeste/UserIO.cs:206-263 | a save returning true leaves the data in both primary and backup, and loading either gives back the decoded data |
| UserIO.AtomicWriteKeepsOther | src/Celeste.Core/Source/Celeste/UserIO.cs:190-204 | every file other than the target and its .tmp keeps its content |
| UserIO.SaveFailureKeepsPrimary | src/Celeste.Core/Source/Celeste/UserIO.cs:206-240 | a save that fails (exception or undecodable backup) leaves the primary as it was |
| UserIO.SaveRejectedKeepsBackup | src/Celeste.Core/Source/Celeste/UserIO.cs:206-240 | when the data does not decode, the save fails, the primary is as it was and the backup holds the data (or, if writing it threw, is as it was); with both directories present and a backup write that goes through, the backup holds the data |
| UserIO.RejectedWritesKeepBackup | src/Celeste.Core/Source/Celeste/UserIO.cs:222-227 | the writes of such a save: the backup is written, the verification load rejects it and the primary write is skipped |
| UserIO.WritesFailureKeepPrimary | src/Celeste.Core/Source/Celeste/UserIO.cs:223-228 | the same for the backup, check and primary writes once the directories exist |
| UserIO.SaveConsistent | src/Celeste.Core/Source/Celeste/UserIO.cs:206-240 | Save never makes a path both a file and a directory |
| UserIO.Delete | src/Celeste.Core/Source/Celeste/UserIO.cs:275-284 | the volume and the result are exactly those of Delete; a throw changes nothing |
| UserIO.DeleteRemovesPrimaryOnly | src/Celeste.Core/Source/Celeste/UserIO.cs:270-284 | true iff the primary existed; afterwards it is absent, the backup stays, no other file changes, a second Delete returns false; it throws only in a read-only directory |
| UserIO.Exists | src/Celeste.Core/Source/Celeste/UserIO.cs:270-273 | true exactly when reading the primary gives bytes, the file Load reads when not asked for the backup |
| UserIO.ExistsIgnoresBackup | src/Celeste.Core/Source/Celeste/UserIO.cs:270-273 | Exists looks at the primary only: writing the backup does not change it |
| UserIO.SaveHandshake.constructor | src/Celeste.Core/Source/Celeste/UserIO.cs:161-173 | all flags start false, no routine, and the flags are coherent |
| UserIO.SaveHandshake.SaveHandler | src/Celeste.Core/Source/Celeste/UserIO.cs:297-304 | the flags change exactly as one SaveHandler call says |
| UserIO.SaveHandshake.Launch | src/Celeste.Core/Source/Celeste/UserIO.cs:82-96 | serialize what is requested, raise savingInternal, clear SavingResult and start the worker |
| UserIO.SaveHandshake.AwaitMenu | src/Celeste.Core/Source/Celeste/UserIO.cs:111-123 | wait while the overlay is open, then retry or end |
| UserIO.SaveHandshake.MoveNext | src/Celeste.Core/Source/Celeste/UserIO.cs:63-128 | the flags and the yield flag are exactly those of one MoveNext |
| UserIO.SaveHandshake.SaveThread | src/Celeste.Core/Source/Celeste/UserIO.cs:347-364 | the flags and the volume are exactly those of the worker run to its end |
| UserIO.HandlerSingleFlight | src/Celeste.Core/Source/Celeste/UserIO.cs:297-304 | while a save is in flight SaveHandler does nothing; otherwise it starts exactly one routine; coherence is kept |
| UserIO.CoherenceKept | src/Celeste.Core/Source/Celeste/UserIO.cs:63-128 | every MoveNext and worker run keeps Saving set exactly while a routine is in flight; the routine ends iff Saving is cleared |
| UserIO.ThreadResultIsConjunction | src/Celeste.Core/Source/Celeste/UserIO.cs:347-364 | SavingResult is the AND of the requested saves (true when none); both saves run even after a failure; savingInternal ends cleared |
| UserIO.RoutineEndsOnSuccess | src/Celeste.Core/Source/Celeste/UserIO.cs:97-108 | the routine yields while the worker runs and ends, clearing Saving, once the worker reports success |
| UserIO.RoutineAfterFailure | src/Celeste.Core/Source/Celeste/UserIO.cs:104-123 | after a failure the routine waits for the overlay; declining ends it, retrying starts the worker again |
| UserIO.SaveRoundCompletes | src/Celeste.Core/Source/Celeste/UserIO.cs:297-364 | SaveHandler, MoveNext, the worker and MoveNext again clear Saving and leave the save data in the primary |
| RootRedirect.Normalize | src/Celeste.Core/Source/Porting/RootRedirectFileSystem.cs:24-59 | empty and rooted paths come back unchanged, and with absolute roots every non-empty path resolves to a rooted one |
| RootRedirect.BackslashesFirst | src/Celeste.Core/Source/Porting/RootRedirectFileSystem.cs:33 | backslashes become '/' before any prefix is compared |
| RootRedirect.NotUnderPrefixWhenRooted | src/Celeste.Core/Source/Porting/RootRedirectFileSystem.cs:36-47 | a rooted path never matches a prefix rule |
| RootRedirect.ContentRule | src/Celeste.Core/Source/Porting/RootRedirectFileSystem.cs:36-41 | "Content/x" (any case) resolves to content root + x; "Content" alone to the content root |
| RootRedirect.SavesIsNotSave | src/Celeste.Core/Source/Porting/RootRedirectFileSystem.cs:44-53 | a path under "Saves/" does not match the "Save/" or "Save" rule |
| RootRedirect.SaveRule | src/Celeste.Core/Source/Porting/RootRedirectFileSystem.cs:44-55 | "Save/x" and "Saves/x" resolve to save root + x, with exactly the matched prefix removed; "Save"/"Saves" alone to the save root |
| RootRedirect.BaseRule | src/Celeste.Core/Source/Porting/RootRedirectFileSystem.cs:58 | every other relative path resolves under the base data root, unchanged apart from its separators |
| RootRedirect.NormalizeIdempotent | src/Celeste.Core/Source/Porting/RootRedirectFileSystem.cs:24-59 | with absolute roots every non-empty path resolves to a rooted one, and resolving twice changes nothing |
| RootRedirect.DoubleSeparatorEscapesContent | src/Celeste.Core/Source/Porting/RootRedirectFileSystem.cs:33-41 | for every rooted r and every casing of "Content" followed by '/' or '\\', the path resolves to r with '\\' turned into '/': Path.Combine drops the content root for the rooted remainder |
| RootRedirect.RootRedirectFileSystem.constructor | src/Celeste.Core/Source/Porting/RootRedirectFileSystem.cs:18-22 | keeps the path provider and the device |
| RootRedirect.RootRedirectFileSystem.CreateParent | src/Celeste.Core/Source/Porting/RootRedirectFileSystem.cs:94-96 | creates the missing parent directory; on a throw nothing changes |
| RootRedirect.RootRedirectFileSystem.CreateDirectory | src/Celeste.Core/Source/Porting/RootRedirectFileSystem.cs:100-104 | the volume is exactly that of Directory.CreateDirectory on the resolved path, which throws for the empty path |
| RootRedirect.RootRedirectFileSystem.OpenWrite | src/Celeste.Core/Source/Porting/RootRedirectFileSystem.cs:91-98 | the volume is that of creating the parent, then FileMode.Create or CreateNew on the resolved path |
| RootRedirect.RootRedirectFileSystem.WriteAllText | src/Celeste.Core/Source/Porting/RootRedirectFileSystem.cs:126-133 | the volume is that of creating the parent, then writing the file |
| RootRedirect.RootRedirectFileSystem.Move | src/Celeste.Core/Source/Porting/RootRedirectFileSystem.cs:106-118 | the volume is that of creating the destination's directory, deleting the old destination when overwriting, then File.Move |
| RootRedirect.CreateDirectoryCreates | src/Celeste.Core/Source/Porting/RootRedirectFileSystem.cs:100-104 | afterwards the resolved directory and all above it exist, and no file changed |
| RootRedirect.MoveMoves | src/Celeste.Core/Source/Porting/RootRedirectFileSystem.cs:106-118 | a completed Move puts the source's bytes at the destination, removes the source and touches no other file |
| RootRedirect.MoveKeepsExistingTarget | src/Celeste.Core/Source/Porting/RootRedirectFileSystem.cs:114-117 | without overwrite, a Move onto an existing file throws and changes nothing |
| RootRedirect.MoveOverwrites | src/Celeste.Core/Source/Porting/RootRedirectFileSystem.cs:114-117 | with overwrite, a Move onto another existing file deletes it first and completes, leaving the source's bytes at the destination and the source gone |
| RootRedirect.MoveOntoItselfDeletes | src/Celeste.Core/Source/Porting/RootRedirectFileSystem.cs:114-117 | with overwrite, moving a file onto its own path deletes it, and then File.Move throws |
| RootRedirect.OpenWriteCreates | src/Celeste.Core/Source/Porting/RootRedirectFileSystem.cs:91-98 | a completed OpenWrite leaves an empty file at the resolved path and no other file changed; without overwrite the file was absent |
| RootRedirect.OpenWriteRefusesExisting | src/Celeste.Core/Source/Porting/RootRedirectFileSystem.cs:97 | CreateNew on an existing file throws and changes nothing |
| RootRedirect.OpenWriteCreatesParent | src/Celeste.Core/Source/Porting/RootRedirectFileSystem.cs:94-97 | opening a file in a missing but creatable directory succeeds, creating the directory and an empty file |
| RootRedirect.WriteAllTextWrites | src/Celeste.Core/Source/Porting/RootRedirectFileSystem.cs:126-133 | a completed write leaves exactly the data at the resolved path and no other file changed |
| RootRedirect.WriteAllTextCreatesParent | src/Celeste.Core/Source/Porting/RootRedirectFileSystem.cs:129-132 | writing into a missing but creatable directory succeeds |
| PixelFont.PackedBound | src/Celeste.Core/Source/Porting/PixelFont.cs:118-123 | after n characters the byte holds at most n bits, so the 8-bit shift never loses a bit |
| PixelFont.PackedBits | src/Celeste.Core/Source/Porting/PixelFont.cs:118-123 | after n characters, character j sits at bit n-1-j |
| PixelFont.RowRoundTrip | src/Celeste.Core/Source/Porting/PixelFont.cs:99-123 | encode then decode: the byte is below 32 and DrawChar's bit test lights column col iff the row string has '1' there |
| PixelFont.GlyphRoundTrip | src/Celeste.Core/Source/Porting/PixelFont.cs:112-127 | a glyph's seven bytes decode to exactly the '1' cells of its row strings |
| PixelFont.AddGlyph | src/Celeste.Core/Source/Porting/PixelFont.cs:112-127 | the dictionary gains exactly the encoded glyph under c |
| PixelFont.EncodedGlyphDrawn | src/Celeste.Core/Source/Porting/PixelFont.cs:89-127 | an added glyph is drawn with a square exactly where its row strings have '1' |
| PixelFont.MissingCharRows | src/Celeste.Core/Source/Porting/PixelFont.cs:89-92 | a character BuildGlyphs does not add is drawn from the '?' rows |
| PixelFont.RowPixelAt | src/Celeste.Core/Source/Porting/PixelFont.cs:97-103 | a column's square is drawn iff its bit is lit |
| PixelFont.RowPixelsWithin | src/Celeste.Core/Source/Porting/PixelFont.cs:97-103 | every square of a row lies on that row, inside the columns drawn |
| PixelFont.GlyphPixelAt | src/Celeste.Core/Source/Porting/PixelFont.cs:94-104 | the square of (row, col) is drawn iff that bit is lit |
| PixelFont.GlyphPixelsWithin | src/Celeste.Core/Source/Porting/PixelFont.cs:94-104 | every square of a glyph lies in its box |
| PixelFont.GlyphPixelsExactly | src/Celeste.Core/Source/Porting/PixelFont.cs:94-104 | the squares are exactly the lit cells, each scale x scale, all inside the 5x7 cell box |
| PixelFont.Split | src/Celeste.Core/Source/Porting/PixelFont.cs:57 | splitting yields at least one line |
| PixelFont.SplitJoin | src/Celeste.Core/Source/Porting/PixelFont.cs:57 | joining the lines with '\n' gives the text back |
| PixelFont.SplitLinesUnbroken | src/Celeste.Core/Source/Porting/PixelFont.cs:57 | no line contains '\n' |
| PixelFont.SplitCount | src/Celeste.Core/Source/Porting/PixelFont.cs:57 | there is one line more than there are '\n' |
| PixelFont.MaxLenIsMax | src/Celeste.Core/Source/Porting/PixelFont.cs:58-59 | the measured width is the longest line's length: no line is longer, and some line has it |
| PixelFont.Normalize | src/Celeste.Core/Source/Porting/PixelFont.cs:33-49 | ASCII upper-casing only: the text keeps its length and each character becomes its upper-case ASCII letter or stays as it is |
| PixelFont.NormalizeKeepsNewLines | src/Celeste.Core/Source/Porting/PixelFont.cs:33-49 | normalizing keeps every line break |
| PixelFont.MeasureCountsLines | src/Celeste.Core/Source/Porting/PixelFont.cs:51-61 | the height is (line breaks + 1) line heights |
| PixelFont.CellWithinLines | src/Celeste.Core/Source/Porting/PixelFont.cs:73-86 | each glyph's pen column stays below its line's length, and its line below the number of lines |
| PixelFont.PlacementWithinMeasure | src/Celeste.Core/Source/Porting/PixelFont.cs:51-86 | each glyph DrawString places lies inside the box Measure reports |
| PixelFont.LayoutWithinMeasure | src/Celeste.Core/Source/Porting/PixelFont.cs:51-86 | every glyph DrawString places lies inside the box Measure reports |
| PixelFont.DrawingWithinMeasure | src/Celeste.Core/Source/Porting/PixelFont.cs:51-105 | every square DrawString draws lies inside the box Measure reports |
| PixelFont.RenderedWithin | src/Celeste.Core/Source/Porting/PixelFont.cs:84-104 | the squares of glyphs placed inside a box lie inside that box |
| PixelFont.CarriageReturnMeasuredNotDrawn | src/Celeste.Core/Source/Porting/PixelFont.cs:56-75 | for every text, inserting a '\r' anywhere leaves DrawString's placements unchanged (no glyph, no pen move), while a single line is measured one advance wider for it |
| PixelFont.LettersAndDigitsCovered | src/Celeste.Core/Source/Porting/PixelFont.cs:146-184 | every capital letter and digit has its own glyph |
| PixelFont.LowerCaseDrawnAsCapital | src/Celeste.Core/Source/Porting/PixelFont.cs:48-84 | a lower-case letter is drawn with its capital's glyph |
| PixelFont.PixelFont.constructor | src/Celeste.Core/Source/Porting/PixelFont.cs:23-31 | the dictionary holds exactly the characters BuildGlyphs adds, the fallback '?' among them, each under the encoding of its own row strings |
| PixelFont.PixelFont.BuildGlyphs | src/Celeste.Core/Source/Porting/PixelFont.cs:107-192 | the dictionary holds exactly the 55 characters added, '?' among them, and each one's glyph is the encoding of the row strings its Add call passes |
| PixelFont.PixelFont.AddSymbols | src/Celeste.Core/Source/Porting/PixelFont.cs:129-144 | the dictionary gains exactly the space, '?' and the punctuation, each under the encoding of its own row strings, and every glyph already there is kept |
| PixelFont.PixelFont.AddDigits | src/Celeste.Core/Source/Porting/PixelFont.cs:146-156 | the dictionary gains exactly the digits, each under the encoding of its own row strings, and every glyph already there is kept |
| PixelFont.PixelFont.AddLettersAToM | src/Celeste.Core/Source/Porting/PixelFont.cs:158-171 | the dictionary gains exactly A to M, each under the encoding of its own row strings, and every glyph already there is kept |
| PixelFont.PixelFont.AddLettersNToZ | src/Celeste.Core/Source/Porting/PixelFont.cs:172-184 | the dictionary gains exactly N to Z, each under the encoding of its own row strings, and every glyph already there is kept |
| PixelFont.PixelFont.AddExtras | src/Celeste.Core/Source/Porting/PixelFont.cs:186-189 | the dictionary gains exactly '%', ',' and ';', each under the encoding of its own row strings, and every glyph already there is kept |
| PixelFont.PixelFont.DrawChar | src/Celeste.Core/Source/Porting/PixelFont.cs:89-105 | the squares of the lit cells of the character's glyph, or of '?' when the font lacks it |
| PixelFont.FontGlyphsFromRows | src/Celeste.Core/Source/Porting/PixelFont.cs:89-192 | with the built dictionary, the glyph DrawChar picks for any character is the encoding of that character's row strings (the '?' rows for a character the font lacks), every byte below 32, a cell lit exactly where the row string has '1' |
| PixelFont.FontCharDrawn | src/Celeste.Core/Source/Porting/PixelFont.cs:89-192 | with the built dictionary, DrawChar draws a square at cell (row, col) of a character exactly where that character's row string has '1' |
| PixelFont.PixelFont.Measure | src/Celeste.Core/Source/Porting/PixelFont.cs:51-61 | (0, 0) for empty text, else (longest line x 6·scale, lines x 9·scale), line lengths counted in characters (Unicode scalar values) |
| PixelFont.PixelFont.DrawString | src/Celeste.Core/Source/Porting/PixelFont.cs:63-87 | the DrawChar calls are exactly the pen layout of the normalized text, one per character (Unicode scalar value), and the squares are exactly those DrawChar draws for them |

## Left out

- Logging, the console, `ErrorLog`, `SaveLoadIcon` and the engine's `Exit()` are not modelled. An exit request is an output of `Update`.
- Drawing itself: the white `Texture2D` and `SpriteBatch.Draw` are left out. `DrawChar` and `DrawString` return the squares they would draw, as data.
- The draw screens (`Draw`, `DrawContentMissing` apart from its problem-list loop, `DrawFatal`, the diagnostics overlay and `DrawBoxedText`) are left out. The lazy `GraphicsDevice` and font initialisation in `Update` is left out too. All of this is rendering with no effect on the state.
- `IsHoldDiag`, `PressedRetry` and `PressedExit` read the input devices. They are fields of the `Frame` parameter.
- `GameTime` is given as integer ticks of 100 ns; the 2-second threshold is 20 000 000 ticks. `holdDiagTimer` is a `double` in seconds in the source, so its rounding is not modelled.
- `Vector2` positions are `float` in the source and integers in the model, so float rounding of pen positions is not modelled. DrawChar truncates the position with `(int)`, which is the identity on integers.
- PixelFont.Normalize: modelled as ASCII upper-casing only. Unicode decomposition (FormD/FormC), the removal of non-spacing marks and non-ASCII `ToUpperInvariant` are not modelled. `Measure` and `DrawString` are therefore proved for texts whose normalization is ASCII upper-casing.
- PixelFont.PixelFont.Measure: characters are Unicode scalar values, where the source's `l.Length` counts UTF-16 code units. A character outside the Basic Multilingual Plane (one surrogate pair in .NET) is therefore measured as one advance, where the source measures two. At scale 1, "\U{1F600}" measures (6, 9) in the model and (12, 9) in the source.
- PixelFont.PixelFont.DrawString: the pen walks Unicode scalar values, where the source's `foreach` walks UTF-16 code units. A character outside the Basic Multilingual Plane is drawn as one '?' glyph, where the source draws '?' twice, once for each surrogate, which has no glyph. Within the Basic Multilingual Plane the two agree.
- PixelFont.PixelFont.BuildGlyphs: the `Add` calls are grouped into five methods, in source order, so that each can be verified on its own. The row strings are the source's, collected by character in `RowsOf`. The glyph arrays are stored as seven-byte value sequences, not mutable `byte[]`.
- Null strings and null references are not modelled, except for the null `PortServices.Paths` / `FileSystem` that `Validate` reports (an `Option` and a flag).
- Case-insensitive comparison folds ASCII letters only. Windows separators and drive letters are not modelled: '/' is the only separator, and a path is rooted iff it starts with '/'.
- The content of `Problem` messages is the validator's text. Exceptions are a `Fault` value carrying its description.
- `XmlSerializer` is a parameter. `Deserialize` is a function from bytes to an optional value (`None` when it throws or gives null), and the data `Serialize` produces is an input of each step.
- UserIO.SaveHandshake.SaveThread: the worker runs to its end in one atomic step, so interleavings of the worker with the coroutine inside a frame are not modelled. `Open(Mode.Write)` always returns true, and `Close` does nothing.
- `SaveData.BeforeSave`, `SaveData.Instance`, `Settings.Instance` and `SaveData.GetFilename()` are not modelled. The file name and the serialized data are parameters.
- `PortServices` is not modelled as global state. The paths and the device are passed explicitly.
- RootRedirect.RootRedirectFileSystem.WriteAllText: takes the already encoded bytes. UTF-8 encoding of the text is not modelled.
- The read-only pass-throughs of `RootRedirectFileSystem` (`DirectoryExists`, `FileExists`, `EnumerateFiles`, `EnumerateDirectories`, `OpenRead`, `ReadAllText`) are not modelled beyond `Normalize`, since each only normalizes the path and calls System.IO.
- UserIO.Load: an existing file is always readable in the model. The source's `Load` also returns null when `File.OpenRead` throws on an existing file (its permissions deny reading, or another process holds it), and in `Save` such a backup would fail the verification load and skip the primary write. Whether a file can be opened depends on permissions and other processes, which the volume does not record.
- Paths are compared as strings. '.', '..' and repeated separators are not resolved, so `Parent` differs from `GetDirectoryName` on them (`Parent("/a//b")` is "/a/", where .NET gives "/a"), and "/a//b" and "/a/b" are different entries of the volume. The writing operations of `RootRedirectFileSystem` and `AtomicWriteBytes` are therefore modelled for paths without such segments.
- File streams are whole-file reads and writes. Partial writes, `Flush` and durability across power loss are not modelled; a call either completes or throws before changing anything.
- Concurrency between processes or threads other than the save worker is not modelled.
- The empty path counts as an existing directory, the working directory. `Directory.Exists("")` is false in .NET, so a content root or save path of "" would be judged differently. `Directory.CreateDirectory("")` does throw, as in .NET.
- OkIffComplete: the direction from a complete tree to "OK" is proved for grounded volumes only, where every file and directory sits in an existing directory. Every device satisfies this, but the volume model does not enforce it.
- ScanOkIffComplete: the same premise for the same direction.
- CompleteClean: requires a grounded volume, for the same reason.
- OpenWriteCreatesParent: requires that no file stands at the path, which a grounded volume guarantees for a path whose directory is missing.
- The order in which files are returned inside one directory is not modelled. It does not change the result of `Any()`, since the directory's own files are all looked at before any subdirectory is opened.
