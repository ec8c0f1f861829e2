# windows_startup_manager in Dafny

This project models the core of `windows_startup_manager`, a tool that adds
commands to the per-user Run key of the Windows registry and kills the
processes those entries started. It covers:

- **The command encoder** (`models.dfy`). A `StartupCommand` becomes the string
  stored under the Run key. In VBScript mode it also becomes the launcher
  script that string points at (`%APPDATA%\windows_startup_manager\launcher_<hex>.vbs`).
- **The executable resolver and the output readers of the process manager**
  (`process.dfy`):
  - `extract_executable_name`;
  - the loop that reads the `wmic ... /format:csv` listing;
  - the reading of the `taskkill` outcome.

  Each reader works on the text a subprocess printed.
- **The input validator** (`validator.dfy`).
- **The three use cases**:
  - adding a command (`add_command.dfy`): a `Host` class whose repository and
    file system change in place, proved against a specification of the whole
    run;
  - killing one entry's processes (`kill_process.dfy`);
  - killing the processes of all entries (`kill_all_processes.dfy`): two
    loops, the second over a set in no fixed order.
- **How the two halves fit** (`agreement.dfy`): which executable name the
  resolver recovers from each kind of value the encoder writes.

`shared.dfy` holds `Option`, the `StartupError` variants and `Result`.
`text.dfy` models the Rust standard-library string operations the source
relies on:

- `trim` and `split_whitespace().next()`;
- `contains` and `find`;
- `split(',')`, `lines()` and `join`;
- `{:x}` and `parse::<u32>`.

Things outside the program are inputs of the model:

- the hash (`DefaultHasher`) is a deterministic function `Hasher`;
- the file system seen by the validator is a `FileSystem` of existing paths and directories;
- `APPDATA` and the failures of `create_dir_all`, `fs::write` and the repository's `add` come from an `Environment`;
- the repository's listing is its `Result`;
- `kill_processes_by_name` is a function from a name to `Result<nat>`;
- the subprocesses are their captured output.

The repository behaves like the map-backed repository of the integration tests: `add` inserts or replaces.

Some behaviour of the code that a reader might not expect is kept as
written, and proved:

- **`.exe` in the PowerShell rule.** The resolver appends `.exe` to the first
  word of a PowerShell inline command even when that word already ends in
  `.exe`. A reader might expect such a word to come back unchanged, but
  `extract_executable_name` (src/infrastructure/process.rs:142) always appends
  `.exe`, and so does the model (`Process.PowerShellAlwaysAppends`).
- **PowerShell with a working directory.** The inline command of such a value
  starts with `Set-Location`. So the resolver names `Set-Location.exe`, not
  the program (`Agreement.PowerShellWorkdirResolvesToSetLocation`).
- **VBScript values.** Every VBScript-mode value resolves to `wscript.exe`.
  Killing such an entry therefore kills every `wscript.exe` process
  (`Agreement.VbscriptResolvesToWscript`).
- **Blank text.** The source asks "does it trim to nothing". `ValidateName`
  and `ParseProcessLine` test that every character is whitespace instead.
  `Text.TrimEmptyIff` proves the two agree.

## Model

| member | source | states |
|---|---|---|
| Models.CommandLineShape | src/domain/models.rs:58-62 | the command line equals the program exactly when there are no arguments; otherwise it is the program followed by each argument after one space, unquoted |
| Models.ToRegistryValue | src/domain/models.rs:49-51 | an `Executable` is stored as its path unchanged |
| Models.GenerateVbscriptWrapper | src/domain/models.rs:98-131 | the VBScript-mode value always starts with the `wscript.exe //B //Nologo ` invocation |
| Models.ScriptFileNameInjective | src/domain/models.rs:169-173 | two launcher names `launcher_<hex>.vbs` coincide exactly when the hashes do (hex numerals are injective) |
| Models.VbscriptContent | src/domain/models.rs:135-178 | a launcher is produced exactly for `CommandWithArgs` in VBScript mode, and its name starts with `launcher_` and ends with `.vbs` |
| Models.DoubleQuotes | src/domain/models.rs:154-155 | quote doubling leaves text without `"` unchanged and never shortens it |
| Models.ReadDoubledQuotes | src/domain/models.rs:154-161 | reading a VBScript string literal back undoes the doubling of `"` exactly, stopping at the closing quote |
| Models.ScriptRunsCommandLine | src/domain/models.rs:149-163 | the launcher script reads back as "change to exactly this directory (only when one is given), then run exactly this command line" |
| Models.VbscriptValueNamesLauncher | src/domain/models.rs:64-68 | the VBScript-mode value is the wscript invocation on `%APPDATA%\windows_startup_manager\` plus the very file name `get_vbscript_content` returns, whatever the working directory; the script text carries the directory and command line |
| Models.LauncherSharedIffSameHash | src/domain/models.rs:119-124 | two VBScript commands share a launcher file exactly when their command lines hash alike; equal command lines give equal values |
| Models.PowerShellShape | src/domain/models.rs:69-82 | PowerShell mode puts the command line, unescaped, between the `powershell.exe -WindowStyle Hidden -NoProfile -Command "` prefix and a closing `"`; with a working directory the text between them is exactly `Set-Location '<dir>'; ` followed by the line |
| Models.VisibleShape | src/domain/models.rs:83-90 | Visible mode stores the command line itself without a working directory, and with one exactly `cmd.exe /c "cd /d "<dir>" && <line>"` |
| Text.TrimEmptyIff | src/domain/validator.rs:31 | a string trims to nothing exactly when every character is whitespace |
| Text.SplitJoined | src/infrastructure/process.rs:44 | splitting fields joined by a separator they do not contain gives the fields back |
| Text.ParseU32OfDecimal | src/infrastructure/process.rs:46 | `parse::<u32>` reads back the decimal numeral of any value below 2^32 |
| Text.NumeralRoundTrip | src/domain/models.rs:124 | a numeral in any base from 2 to 16 reads back as its value |
| Process.ExtractExecutableName | src/infrastructure/process.rs:127-162 | every result ends in `.exe`; `wscript.exe` anywhere wins over every other rule; `cmd.exe` wins when neither `wscript.exe` nor `powershell.exe` appears; nothing is found only when none of the three appears |
| Process.PowerShellInnerProgram | src/infrastructure/process.rs:136-143 | the program taken from the PowerShell inline command is one non-empty word |
| Process.PowerShellBranch | src/infrastructure/process.rs:134-146 | once `powershell.exe` appears (and `wscript.exe` does not): no `Command "`, no closing `"` after it, or only whitespace in between gives `powershell.exe`; otherwise the first word in between with `.exe` appended |
| Process.DirectExecutable | src/infrastructure/process.rs:154-161 | with no marker present, a name is found exactly when the first word ends in `.exe`, and it is that word; blank input gives none |
| Process.PowerShellAlwaysAppends | src/infrastructure/process.rs:141-143 | `.exe` is appended to the inline program even when it already ends in `.exe` |
| Process.ParseProcessLine | src/infrastructure/process.rs:40-53 | a line gives a record exactly when it is not blank, has at least three comma-separated fields and its trimmed third field parses as a `u32`; the record's pid is that number, its name and command line the trimmed second and first fields |
| Process.ParsePaddedLine | src/infrastructure/process.rs:40-53 | a line whose first three comma-separated fields are a command line, a name and a 32-bit id, padded with whitespace or not and followed by further fields or not, gives the record of the trimmed id, name and command line |
| Text.SplitAtFirst | src/infrastructure/process.rs:44 | splitting at the first separator gives the field before it followed by the split of the rest |
| Process.ParseProcessRow | src/infrastructure/process.rs:44-52 | a row written as `command_line,name,pid` (clean fields, 32-bit pid) parses back to exactly that record |
| Process.RecordsAreThePresentValues | src/infrastructure/process.rs:44-53 | the kept records are exactly the values of the lines that parse, never more than the lines |
| Process.ProcessRecordsFromLines | src/infrastructure/process.rs:38-53 | a record is in the result exactly when some data line parses to it; there are at most as many records as data lines |
| Process.ParseProcessList | src/infrastructure/process.rs:36-54 | the listing loop skips the two header lines and returns the records of the remaining lines in order, at most one per line |
| Process.SuccessLinesCountsPositions | src/infrastructure/process.rs:103 | the kill count is the number of output lines that contain `SUCCESS` |
| Process.KillOutcome | src/infrastructure/process.rs:89-105 | a failed run is 0 exactly when its error text says `not found` and an error otherwise; a successful run counts the `SUCCESS` lines (as u32) |
| Validator.ValidatePath | src/domain/validator.rs:10-15 | the path passes exactly when it exists; otherwise `PathNotFound` carries it unchanged |
| Validator.ValidateDirectory | src/domain/validator.rs:18-27 | passes exactly for an existing directory; a missing path is `DirectoryNotFound`, an existing non-directory `NotADirectory` |
| Validator.ValidateName | src/domain/validator.rs:30-37 | the only error is `InvalidName("Entry name cannot be empty")` |
| Validator.ValidateNameRefusesBlank | src/domain/validator.rs:30-37 | a name is refused exactly when it trims to nothing (whitespace-only, tabs and newlines included); any non-whitespace character makes it pass |
| Validator.DirectoryCheckImpliesPathCheck | src/domain/validator.rs:10-27 | a directory that passes also passes the path check, and a missing path fails both as not found |
| AddCommand.PathPush | src/application/add_command.rs:68-76 | `PathBuf::push` puts exactly one `\` between base and part unless the base is empty, ends in a separator or is a bare drive |
| AddCommand.BlankNameFailsFirst | src/application/add_command.rs:28 | a blank name fails with `InvalidName` before any other check or effect |
| AddCommand.BadWorkdirHasNoEffect | src/application/add_command.rs:31-33 | the working directory is checked only when given, and a failing one ends the run with its error and no effect |
| AddCommand.EncodeHasScriptIffVbscript | src/application/add_command.rs:44-45 | the built command has a launcher exactly in VBScript mode |
| AddCommand.ScriptFileRunSucceeds | src/application/add_command.rs:61-82 | a successful `create_vbscript_file` has created `APPDATA\windows_startup_manager` and then written the file in it |
| AddCommand.SuccessfulRunWithScript | src/application/add_command.rs:44-55 | for any encoding, a successful run with a launcher creates the directory, writes the launcher and then adds the entry, exactly these three effects |
| AddCommand.SuccessfulRunWithoutScript | src/application/add_command.rs:44-55 | for any encoding, a successful run without a launcher only adds the entry |
| AddCommand.SuccessfulRunEffects | src/application/add_command.rs:36-55 | on success exactly one entry is added, with the name and `to_registry_value()` of the built command, last; the launcher (name and text from `get_vbscript_content`) is written before it in VBScript mode only |
| AddCommand.ScriptRunAddsNothing | src/application/add_command.rs:61-82 | writing the launcher never touches the repository |
| AddCommand.AddedIffSucceeded | src/application/add_command.rs:47-57 | for any encoding, an entry is added exactly when the run succeeds |
| AddCommand.MissingAppDataFails | src/application/add_command.rs:63-65 | in VBScript mode a missing `APPDATA` fails with its `RegistryError` before any directory is created, and nothing is added |
| AddCommand.ScriptFailureAbortsRun | src/application/add_command.rs:47 | any failure while writing the launcher ends the run with that error and no repository add |
| AddCommand.RunReachesAdd | src/application/add_command.rs:50-57 | once the inputs are valid and any launcher is written, the run ends with the repository's `add` of the name and `to_registry_value()`: its error is the run's error, otherwise the entry is the last effect |
| AddCommand.LauncherWrittenWhereValuePoints | src/application/add_command.rs:67-79 | for a plain `APPDATA` path the launcher is written to `APPDATA\windows_startup_manager\<file>`, the file the registry value names through `%APPDATA%` |
| AddCommand.SuccessStoresEntry | src/application/add_command.rs:50-55 | after a successful run the repository maps the name to the command's registry value and every other entry is unchanged |
| AddCommand.Host.CreateVbscriptFile | src/application/add_command.rs:61-82 | result, effect trace and new state are those of the launcher-writing specification |
| AddCommand.Host.Execute | src/application/add_command.rs:19-58 | result, effect trace and new repository and file-system state are those of the run specification, so every lemma above holds of the method |
| KillProcess.KillTarget | src/application/kill_process.rs:17-35 | a blank name is refused with `InvalidName`; a target comes only from a listing that succeeded, and is what the first entry with exactly that name resolves to |
| KillProcess.KillProcess | src/application/kill_process.rs:15-41 | a blank name is refused with `InvalidName`; a count comes only from a listing that succeeded and is the kill's own result for what the first entry with exactly that name resolves to |
| KillProcess.FirstNamed | src/application/kill_process.rs:21-23 | the position found holds the first entry with exactly that name, or no entry has it |
| KillProcess.BlankNameRefused | src/application/kill_process.rs:17 | a blank name fails with `InvalidName` whatever the listing and the kill would give |
| KillProcess.ListingErrorPropagates | src/application/kill_process.rs:20 | a failing listing is returned unchanged |
| KillProcess.MissingEntryIsRegistryError | src/application/kill_process.rs:21-26 | no entry with the name gives `RegistryError("Entry '<name>' not found in startup registry")`, not `EntryNotFound` |
| KillProcess.FirstMatchDecides | src/application/kill_process.rs:21-40 | the first entry with exactly that name decides the outcome; later entries play no part |
| KillProcess.UnresolvedIsNotKilled | src/application/kill_process.rs:29-35 | when the entry's value names no executable, the outcome is independent of the kill, and is the `RegistryError` quoting the value |
| KillProcess.ResolvedIsKilled | src/application/kill_process.rs:38-40 | otherwise the outcome is the kill's own count or error for the resolved name |
| KillProcess.TargetEndsInExe | src/application/kill_process.rs:29-38 | the name passed to the kill always ends in `.exe` |
| KillAllProcesses.PresentIff | src/application/kill_all_processes.rs:21-26 | a name is collected exactly when some resolution is that name |
| KillAllProcesses.TargetsAreResolvedNames | src/application/kill_all_processes.rs:21-26 | the kill targets are exactly the distinct non-None resolver results over all entries |
| KillAllProcesses.CollectTargets | src/application/kill_all_processes.rs:21-26 | the first loop builds exactly the target set |
| KillAllProcesses.KillStep | src/application/kill_all_processes.rs:31-41 | one turn keeps the reported names distinct, equal to the targets tried so far with a positive count, and each with the kill's own count |
| KillAllProcesses.KillEach | src/application/kill_all_processes.rs:29-42 | each target is tried exactly once, in any order; the report holds each target whose kill returned a count above 0, once, with that count; kill errors are skipped |
| KillAllProcesses.KillAll | src/application/kill_all_processes.rs:16-45 | the only error is a failing listing; otherwise every target is tried once and the report is exactly the targets killed with a positive count, names distinct |
| KillAllProcesses.ReportedNamesResolve | src/application/kill_all_processes.rs:21-36 | every reported name is the resolved name of some entry, with a positive count |
| Agreement.VbscriptResolvesToWscript | src/infrastructure/process.rs:129-131 | every VBScript-mode value resolves to `wscript.exe` |
| Agreement.VisibleWorkdirResolvesToCmd | src/infrastructure/process.rs:150-152 | a Visible value with a working directory resolves to `cmd.exe` unless the directory or the command line names `wscript.exe` or `powershell.exe` |
| Agreement.VisibleDirectResolvesToProgram | src/infrastructure/process.rs:155-159 | a Visible value without a working directory resolves to the program when it is one word ending in `.exe` and no marker appears |
| Agreement.PowerShellInvocation | src/infrastructure/process.rs:134-143 | a value of the form `powershell.exe ... -Command "<inner>"` falls into the PowerShell rule, and the program taken from it is the first word of the whole of `<inner>`, when `<inner>` has no `"` and does not name `wscript.exe` |
| Agreement.PowerShellResolvesToProgram | src/infrastructure/process.rs:134-143 | a PowerShell value without a working directory resolves to the program with `.exe` appended |
| Agreement.PowerShellWorkdirResolvesToSetLocation | src/infrastructure/process.rs:136-143 | a PowerShell value with a working directory resolves to `Set-Location.exe`, whatever the program |

## Left out

- The hash algorithm (`DefaultHasher`, SipHash) is not modelled. The encoder takes any deterministic `Hasher`, and nothing is proved about collisions.
- The script text that `generate_vbscript_wrapper` builds and then drops has no observable effect. So `GenerateVbscriptWrapper` takes no working directory.
- Running `wmic` and `taskkill` and checking their exit status is not modelled. The readers take the captured output and the success flag as inputs.
- The lossy UTF-8 decoding of that output is not modelled: the text is given as characters.
- `find_processes_by_command` is left out: it depends on Unicode `to_lowercase`.
- `ProcessManager::kill_process` (kill by pid, src/infrastructure/process.rs:61-78) is left out: it is marked dead code and nothing in the core calls it.
- The registry wrapper is not modelled. The repository is a map, as in the integration tests, and its listing is given to the kill use cases as a `Result`.
- `add_executable`, `remove_entry` and `list_entries` are not modelled. Nor are the command-line interface, the presenter and `main`. They pass values through or print.
- The `Display` texts of `StartupError` are not modelled. `IoError` carries the description the environment gives for the failing path.
- Windows path prefixes (`\\?\`, UNC, `C:` followed by a relative path) beyond the bare-drive case are not modelled by `AddCommand.PathPush`.
- For an entry whose value quotes a path with spaces, the resolver is modelled by the first-word rule only, with no further claim.
- Process.ExtractExecutableName: string positions are counted in characters, not UTF-8 bytes. `find` and slicing use the same unit, so the result is the same.
- KillProcess.KillProcess: `kill_processes_by_name` is a function of the name. Two calls with the same name give the same answer, and calls have no modelled effect.
- KillAllProcesses.KillAll: the order of the report is any order of the targets, since the `HashSet` order is not modelled.
- Agreement.VisibleWorkdirResolvesToCmd: stated only when neither the directory nor the command line names `wscript.exe` or `powershell.exe`. If one of them does, an earlier rule of the resolver decides.
- Agreement.PowerShellResolvesToProgram: stated for a command line without `"` and without `wscript.exe`, and for a program that is a single word.
- Agreement.PowerShellWorkdirResolvesToSetLocation: has the same conditions as `Agreement.PowerShellResolvesToProgram`, applied to the directory as well.
