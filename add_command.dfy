/** `AddCommandUseCase` (src/application/add_command.rs): validate, write the
    VBScript launcher when the mode asks for one, then add the registry entry.
    The repository is the map-backed one of the integration tests; the file
    system and the environment are a `Host` whose answers are fixed for a run
    and whose visible effects are recorded in order. */
module AddCommand {
  import opened Shared
  import opened Text
  import opened Models
  import opened Validator

  /** A visible effect of the use case, in the order it happens. */
  datatype Effect =
    | CreateDirAll(dir: string)
    | WriteFile(path: string, content: string)
    | RegistryAdd(entry: StartupEntry)

  /** What one run returns and does. */
  datatype Run = Run(result: Result<()>, effects: seq<Effect>)

  /** The answers of everything outside the use case: the file system seen by
      the validator, `APPDATA`, the hasher, the directories `create_dir_all`
      and the files `fs::write` fail on (with the error's description), and
      whether the repository refuses to add. */
  datatype Environment = Environment(
    fs: FileSystem,
    appData: Option<string>,
    hash: Hasher,
    createDirFailures: map<string, string>,
    writeFailures: map<string, string>,
    addFailure: Option<StartupError>)

  const APPDATA_MISSING: string := "Failed to get APPDATA environment variable"

  // ---------------------------------------------------------------------
  // Paths
  // ---------------------------------------------------------------------

  predicate IsSeparator(c: char) {
    c == '\\' || c == '/'
  }

  /** A bare drive prefix such as `C:`, after which `push` adds no separator. */
  predicate IsBareDrive(p: string) {
    |p| == 2 && p[1] == ':' && ('a' <= p[0] <= 'z' || 'A' <= p[0] <= 'Z')
  }

  /** `PathBuf::push` of a relative component on Windows: a `\` goes between
      the two unless the base is empty, already ends in a separator, or is a
      bare drive. */
  function PathPush(base: string, part: string): (r: string)
    ensures r == base + part || r == base + "\\" + part
    ensures (base != [] && !IsSeparator(base[|base| - 1]) && !IsBareDrive(base)) <==> r == base + "\\" + part
  {
    if base == [] || IsSeparator(base[|base| - 1]) || IsBareDrive(base) then base + part
    else base + "\\" + part
  }

  // ---------------------------------------------------------------------
  // The specification of one run
  // ---------------------------------------------------------------------

  /** `create_vbscript_file`: find `APPDATA`, create its `windows_startup_manager`
      directory, write the launcher there. Each step's failure ends the run. */
  function ScriptFileRun(env: Environment, filename: string, content: string): Run {
    match env.appData
    case None => Run(Err(RegistryError(APPDATA_MISSING)), [])
    case Some(appData) =>
      var dir := PathPush(appData, APP_DIR_NAME);
      if dir in env.createDirFailures then Run(Err(IoError(env.createDirFailures[dir])), [])
      else
        var path := PathPush(dir, filename);
        if path in env.writeFailures then Run(Err(IoError(env.writeFailures[path])), [CreateDirAll(dir)])
        else Run(Ok(()), [CreateDirAll(dir), WriteFile(path, content)])
  }

  /** The command the use case builds from its arguments. */
  function BuildCommand(command: string, args: seq<string>, workdir: Option<string>, mode: ExecutionMode): StartupCommand {
    CommandWithArgs(command, args, workdir, mode)
  }

  /** The checks that come before any effect: the name, then the working
      directory when there is one. */
  function ValidateInputs(env: Environment, name: string, workdir: Option<string>): Result<()> {
    match ValidateName(name)
    case Err(e) => Err(e)
    case Ok(_) =>
      match workdir
      case None => Ok(())
      case Some(dir) => ValidateDirectory(env.fs, dir)
  }

  /** What the encoder gives the use case for one command: the launcher file
      (name and text) when there is one, and the registry value. */
  datatype Encoding = Encoding(script: Option<(string, string)>, value: string)

  function Encode(cmd: StartupCommand, hash: Hasher): Encoding {
    Encoding(VbscriptContent(cmd, hash), ToRegistryValue(cmd, hash))
  }

  /** `AddCommandUseCase::execute`, as the result it returns and the effects it has. */
  function AddCommandRun(env: Environment, name: string, command: string, args: seq<string>,
                         workdir: Option<string>, mode: ExecutionMode): Run
  {
    RunWith(env, name, workdir, mode, Encode(BuildCommand(command, args, workdir, mode), env.hash))
  }

  /** The steps of `execute` once the command has been encoded: validate, write
      the launcher in VBScript mode, add the entry. */
  function RunWith(env: Environment, name: string, workdir: Option<string>, mode: ExecutionMode,
                   enc: Encoding): Run
  {
    match ValidateInputs(env, name, workdir)
    case Err(e) => Run(Err(e), [])
    case Ok(_) =>
      var script :=
        if mode == VBScript && enc.script.Some? then ScriptFileRun(env, enc.script.value.0, enc.script.value.1)
        else Run(Ok(()), []);
      if script.result.Err? then script
      else
        match env.addFailure
        case Some(e) => Run(Err(e), script.effects)
        case None => Run(Ok(()), script.effects + [RegistryAdd(StartupEntry(name, enc.value))])
  }

  // ---------------------------------------------------------------------
  // What a run promises
  // ---------------------------------------------------------------------

  /** A blank name is refused before anything else is looked at or done. */
  lemma BlankNameFailsFirst(env: Environment, name: string, command: string, args: seq<string>,
                            workdir: Option<string>, mode: ExecutionMode)
    requires AllWhitespace(name)
    ensures AddCommandRun(env, name, command, args, workdir, mode)
            == Run(Err(InvalidName(EMPTY_NAME_REASON)), [])
  {
    ValidateNameRefusesBlank(name);
  }

  /** The working directory is checked only when one is given; a bad one ends
      the run with the validator's error and no effect at all. */
  lemma BadWorkdirHasNoEffect(env: Environment, name: string, command: string, args: seq<string>,
                              workdir: Option<string>, mode: ExecutionMode)
    requires !AllWhitespace(name)
    ensures workdir.Some? && ValidateDirectory(env.fs, workdir.value).Err?
            ==> AddCommandRun(env, name, command, args, workdir, mode)
                == Run(ValidateDirectory(env.fs, workdir.value), [])
    ensures ValidateInputs(env, name, workdir).Ok?
            <==> workdir.None? || ValidateDirectory(env.fs, workdir.value).Ok?
  {
    ValidateNameRefusesBlank(name);
  }

  /** Whatever the encoding, a successful run had a name that is not blank. */
  lemma SuccessMeansNamed(env: Environment, name: string, workdir: Option<string>, mode: ExecutionMode,
                          enc: Encoding)
    requires RunWith(env, name, workdir, mode, enc).result.Ok?
    ensures !AllWhitespace(name)
    ensures ValidateInputs(env, name, workdir).Ok?
  {
  }

  /** A successful run with a launcher to write creates the launcher's
      directory, writes the file in it and then adds the entry with the encoded
      value: exactly these three effects. */
  lemma SuccessfulRunWithScript(env: Environment, name: string, workdir: Option<string>, mode: ExecutionMode,
                                enc: Encoding)
    requires RunWith(env, name, workdir, mode, enc).result.Ok?
    requires mode == VBScript && enc.script.Some?
    ensures env.appData.Some?
    ensures var dir := PathPush(env.appData.value, APP_DIR_NAME);
            RunWith(env, name, workdir, mode, enc).effects
            == [CreateDirAll(dir), WriteFile(PathPush(dir, enc.script.value.0), enc.script.value.1),
                RegistryAdd(StartupEntry(name, enc.value))]
  {
    SuccessMeansNamed(env, name, workdir, mode, enc);
    var script := ScriptFileRun(env, enc.script.value.0, enc.script.value.1);
    ScriptFileRunSucceeds(env, enc.script.value.0, enc.script.value.1);
    assert script.effects + [RegistryAdd(StartupEntry(name, enc.value))]
        == [script.effects[0], script.effects[1], RegistryAdd(StartupEntry(name, enc.value))];
  }

  /** A successful run with no launcher to write does one thing: it adds the
      entry with the encoded value. */
  lemma SuccessfulRunWithoutScript(env: Environment, name: string, workdir: Option<string>, mode: ExecutionMode,
                                   enc: Encoding)
    requires RunWith(env, name, workdir, mode, enc).result.Ok?
    requires mode != VBScript || enc.script.None?
    ensures RunWith(env, name, workdir, mode, enc).effects == [RegistryAdd(StartupEntry(name, enc.value))]
  {
    SuccessMeansNamed(env, name, workdir, mode, enc);
  }

  /** When writing the launcher succeeds, it has created the directory and then
      written the file in it. */
  lemma ScriptFileRunSucceeds(env: Environment, filename: string, content: string)
    requires ScriptFileRun(env, filename, content).result.Ok?
    ensures env.appData.Some?
    ensures var dir := PathPush(env.appData.value, APP_DIR_NAME);
            ScriptFileRun(env, filename, content).effects
            == [CreateDirAll(dir), WriteFile(PathPush(dir, filename), content)]
  {
  }

  /** The encoder gives a launcher exactly in VBScript mode. */
  lemma EncodeHasScriptIffVbscript(command: string, args: seq<string>, workdir: Option<string>,
                                   mode: ExecutionMode, hash: Hasher)
    ensures Encode(BuildCommand(command, args, workdir, mode), hash).script.Some? <==> mode == VBScript
  {
  }

  /** A successful run adds exactly one entry, the name with the command's
      registry value, as its last effect; before it come the launcher's
      directory and file, named and filled as `get_vbscript_content` says, in
      VBScript mode, and nothing in the other modes. */
  lemma SuccessfulRunEffects(env: Environment, name: string, command: string, args: seq<string>,
                             workdir: Option<string>, mode: ExecutionMode)
    requires AddCommandRun(env, name, command, args, workdir, mode).result.Ok?
    ensures var cmd := BuildCommand(command, args, workdir, mode);
            var effects := AddCommandRun(env, name, command, args, workdir, mode).effects;
            var add := RegistryAdd(StartupEntry(name, ToRegistryValue(cmd, env.hash)));
            !AllWhitespace(name)
            && (mode != VBScript ==> effects == [add])
            && (mode == VBScript ==>
                  env.appData.Some?
                  && var dir := PathPush(env.appData.value, APP_DIR_NAME);
                     var (filename, content) := VbscriptContent(cmd, env.hash).value;
                     effects == [CreateDirAll(dir), WriteFile(PathPush(dir, filename), content), add])
  {
    var enc := Encode(BuildCommand(command, args, workdir, mode), env.hash);
    EncodeHasScriptIffVbscript(command, args, workdir, mode, env.hash);
    SuccessMeansNamed(env, name, workdir, mode, enc);
    if mode == VBScript {
      SuccessfulRunWithScript(env, name, workdir, mode, enc);
    } else {
      SuccessfulRunWithoutScript(env, name, workdir, mode, enc);
    }
  }

  /** Writing the launcher never touches the registry. */
  lemma ScriptRunAddsNothing(env: Environment, filename: string, content: string)
    ensures forall i :: 0 <= i < |ScriptFileRun(env, filename, content).effects|
              ==> !ScriptFileRun(env, filename, content).effects[i].RegistryAdd?
  {
  }

  /** Whatever the encoding, a run adds an entry exactly when it succeeds. */
  lemma AddedIffSucceeded(env: Environment, name: string, workdir: Option<string>, mode: ExecutionMode,
                          enc: Encoding)
    ensures var run := RunWith(env, name, workdir, mode, enc);
            run.result.Ok? <==> exists i :: 0 <= i < |run.effects| && run.effects[i].RegistryAdd?
  {
    var run := RunWith(env, name, workdir, mode, enc);
    if run.result.Ok? && mode == VBScript && enc.script.Some? {
      SuccessfulRunWithScript(env, name, workdir, mode, enc);
      assert run.effects[2].RegistryAdd?;
    } else if run.result.Ok? {
      SuccessfulRunWithoutScript(env, name, workdir, mode, enc);
      assert run.effects[|run.effects| - 1].RegistryAdd?;
    } else if mode == VBScript && enc.script.Some? && ValidateInputs(env, name, workdir).Ok? {
      ScriptRunAddsNothing(env, enc.script.value.0, enc.script.value.1);
    }
  }

  /** In VBScript mode with `APPDATA` unset the run fails with the registry
      error for it before any directory is created, and nothing is added. */
  lemma MissingAppDataFails(env: Environment, name: string, command: string, args: seq<string>,
                            workdir: Option<string>)
    requires env.appData.None? && ValidateInputs(env, name, workdir).Ok?
    ensures AddCommandRun(env, name, command, args, workdir, VBScript)
            == Run(Err(RegistryError(APPDATA_MISSING)), [])
  {
    EncodeHasScriptIffVbscript(command, args, workdir, VBScript, env.hash);
  }

  /** Whenever the launcher cannot be written, the run fails with that error,
      having done no more than that step did, and the entry is not added. */
  lemma ScriptFailureAbortsRun(env: Environment, name: string, command: string, args: seq<string>,
                               workdir: Option<string>)
    requires ValidateInputs(env, name, workdir).Ok?
    ensures var cmd := BuildCommand(command, args, workdir, VBScript);
            var (filename, content) := VbscriptContent(cmd, env.hash).value;
            var script := ScriptFileRun(env, filename, content);
            script.result.Err? ==> AddCommandRun(env, name, command, args, workdir, VBScript) == script
  {
    EncodeHasScriptIffVbscript(command, args, workdir, VBScript, env.hash);
  }

  /** Once the inputs are valid and the launcher, when there is one, is
      written, the run ends with the repository's add. */
  lemma RunReachesAdd(env: Environment, name: string, command: string, args: seq<string>,
                      workdir: Option<string>, mode: ExecutionMode, scriptEffects: seq<Effect>)
    requires ValidateInputs(env, name, workdir).Ok?
    requires var content := VbscriptContent(BuildCommand(command, args, workdir, mode), env.hash);
             if mode == VBScript && content.Some? then
               var script := ScriptFileRun(env, content.value.0, content.value.1);
               script.result.Ok? && scriptEffects == script.effects
             else scriptEffects == []
    ensures var entry := StartupEntry(name, ToRegistryValue(BuildCommand(command, args, workdir, mode), env.hash));
            AddCommandRun(env, name, command, args, workdir, mode)
            == if env.addFailure.Some? then Run(Err(env.addFailure.value), scriptEffects)
               else Run(Ok(()), scriptEffects + [RegistryAdd(entry)])
  {
  }

  /** With `APPDATA` a plain directory path (not empty, no trailing separator,
      not a bare drive), the launcher is written to the very file the registry
      value starts, `%APPDATA%` standing for that path. */
  lemma LauncherWrittenWhereValuePoints(env: Environment, name: string, command: string, args: seq<string>,
                                        workdir: Option<string>)
    requires AddCommandRun(env, name, command, args, workdir, VBScript).result.Ok?
    requires env.appData.Some? && env.appData.value != []
    requires !IsSeparator(env.appData.value[|env.appData.value| - 1]) && !IsBareDrive(env.appData.value)
    ensures var cmd := BuildCommand(command, args, workdir, VBScript);
            var filename := VbscriptContent(cmd, env.hash).value.0;
            |AddCommandRun(env, name, command, args, workdir, VBScript).effects| == 3
            && AddCommandRun(env, name, command, args, workdir, VBScript).effects[1].path
              == env.appData.value + "\\" + APP_DIR_NAME + "\\" + filename
    ensures var cmd := BuildCommand(command, args, workdir, VBScript);
            var filename := VbscriptContent(cmd, env.hash).value.0;
            ToRegistryValue(cmd, env.hash)
              == WSCRIPT_INVOCATION + LAUNCHER_DIR + filename + "\""
  {
    var cmd := BuildCommand(command, args, workdir, VBScript);
    var filename := VbscriptContent(cmd, env.hash).value.0;
    SuccessfulRunEffects(env, name, command, args, workdir, VBScript);
    LauncherPath(env.appData.value, filename);
    VbscriptValueNamesLauncher(command, args, workdir, env.hash);
  }

  /** Pushing the directory name and then the file name onto a plain base path. */
  lemma LauncherPath(appData: string, filename: string)
    requires appData != [] && !IsSeparator(appData[|appData| - 1]) && !IsBareDrive(appData)
    ensures PathPush(PathPush(appData, APP_DIR_NAME), filename) == appData + "\\" + APP_DIR_NAME + "\\" + filename
  {
    var dir := appData + "\\" + APP_DIR_NAME;
    assert dir[|dir| - 1] == 'r';
  }

  // ---------------------------------------------------------------------
  // The use case, step by step
  // ---------------------------------------------------------------------

  /** The repository and file system a run acts on. */
  datatype World = World(entries: map<string, string>, files: map<string, string>, dirs: set<string>)

  /** What an effect does to the world: the repository add of the integration
      tests' mock inserts or replaces the entry under its name. */
  function Apply(w: World, e: Effect): World {
    match e
    case CreateDirAll(dir) => w.(dirs := w.dirs + {dir})
    case WriteFile(path, content) => w.(files := w.files[path := content])
    case RegistryAdd(entry) => w.(entries := w.entries[entry.name := entry.command])
  }

  function ApplyAll(w: World, effects: seq<Effect>): World
    decreases effects
  {
    if effects == [] then w else ApplyAll(Apply(w, effects[0]), effects[1..])
  }

  lemma {:induction false} ApplyAllAppend(w: World, a: seq<Effect>, b: seq<Effect>)
    ensures ApplyAll(w, a + b) == ApplyAll(ApplyAll(w, a), b)
    decreases a
  {
    if a == [] {
      assert a + b == b;
    } else {
      assert (a + b)[0] == a[0] && (a + b)[1..] == a[1..] + b;
      ApplyAllAppend(Apply(w, a[0]), a[1..], b);
    }
  }

  lemma ApplyOne(w: World, e: Effect)
    ensures ApplyAll(w, [e]) == Apply(w, e)
  {
    assert [e][1..] == [];
  }

  lemma ApplyTwo(w: World, e1: Effect, e2: Effect)
    ensures ApplyAll(w, [e1, e2]) == Apply(Apply(w, e1), e2)
  {
    assert [e1, e2][0] == e1 && [e1, e2][1..] == [e2];
    ApplyOne(Apply(w, e1), e2);
  }

  lemma ApplyThree(w: World, e1: Effect, e2: Effect, e3: Effect)
    ensures ApplyAll(w, [e1, e2, e3]) == Apply(Apply(Apply(w, e1), e2), e3)
  {
    assert [e1, e2, e3][0] == e1 && [e1, e2, e3][1..] == [e2, e3];
    ApplyTwo(Apply(w, e1), e2, e3);
  }

  /** After a successful run the entry under the name holds the command's
      registry value and every other entry is as it was. */
  lemma SuccessStoresEntry(env: Environment, w: World, name: string, command: string, args: seq<string>,
                           workdir: Option<string>, mode: ExecutionMode)
    requires AddCommandRun(env, name, command, args, workdir, mode).result.Ok?
    ensures var w' := ApplyAll(w, AddCommandRun(env, name, command, args, workdir, mode).effects);
            w'.entries == w.entries[name := ToRegistryValue(BuildCommand(command, args, workdir, mode), env.hash)]
  {
    var enc := Encode(BuildCommand(command, args, workdir, mode), env.hash);
    EncodeHasScriptIffVbscript(command, args, workdir, mode, env.hash);
    var add := RegistryAdd(StartupEntry(name, enc.value));
    if mode == VBScript {
      SuccessfulRunWithScript(env, name, workdir, mode, enc);
      var dir := PathPush(env.appData.value, APP_DIR_NAME);
      ApplyThree(w, CreateDirAll(dir), WriteFile(PathPush(dir, enc.script.value.0), enc.script.value.1), add);
    } else {
      SuccessfulRunWithoutScript(env, name, workdir, mode, enc);
      ApplyOne(w, add);
    }
  }

  /** The machine the use case runs on. */
  class Host {
    var entries: map<string, string>
    var files: map<string, string>
    var dirs: set<string>
    var trace: seq<Effect>
    const env: Environment

    constructor(env: Environment, entries: map<string, string>)
      ensures this.env == env && this.entries == entries
      ensures files == map[] && dirs == {} && trace == []
    {
      this.env := env;
      this.entries := entries;
      files := map[];
      dirs := {};
      trace := [];
    }

    function Current(): World
      reads this
    {
      World(entries, files, dirs)
    }

    method CreateDirAllStep(dir: string)
      modifies this
      ensures Current() == Apply(old(Current()), CreateDirAll(dir))
      ensures trace == old(trace) + [CreateDirAll(dir)]
    {
      dirs := dirs + {dir};
      trace := trace + [CreateDirAll(dir)];
    }

    method WriteFileStep(path: string, content: string)
      modifies this
      ensures Current() == Apply(old(Current()), WriteFile(path, content))
      ensures trace == old(trace) + [WriteFile(path, content)]
    {
      files := files[path := content];
      trace := trace + [WriteFile(path, content)];
    }

    method AddEntryStep(entry: StartupEntry)
      modifies this
      ensures Current() == Apply(old(Current()), RegistryAdd(entry))
      ensures trace == old(trace) + [RegistryAdd(entry)]
    {
      entries := entries[entry.name := entry.command];
      trace := trace + [RegistryAdd(entry)];
    }

    /** `create_vbscript_file`. */
    method CreateVbscriptFile(filename: string, content: string) returns (r: Result<()>)
      modifies this
      ensures r == ScriptFileRun(env, filename, content).result
      ensures trace == old(trace) + ScriptFileRun(env, filename, content).effects
      ensures Current() == ApplyAll(old(Current()), ScriptFileRun(env, filename, content).effects)
    {
      if env.appData.None? {
        return Err(RegistryError(APPDATA_MISSING));
      }
      var dirPath := env.appData.value;
      dirPath := PathPush(dirPath, APP_DIR_NAME);
      if dirPath in env.createDirFailures {
        return Err(IoError(env.createDirFailures[dirPath]));
      }
      CreateDirAllStep(dirPath);
      ApplyOne(old(Current()), CreateDirAll(dirPath));
      var filePath := dirPath;
      filePath := PathPush(filePath, filename);
      if filePath in env.writeFailures {
        return Err(IoError(env.writeFailures[filePath]));
      }
      WriteFileStep(filePath, content);
      ApplyTwo(old(Current()), CreateDirAll(dirPath), WriteFile(filePath, content));
      r := Ok(());
    }

    /** `AddCommandUseCase::execute`. */
    method Execute(name: string, command: string, args: seq<string>, workdir: Option<string>, mode: ExecutionMode)
      returns (r: Result<()>)
      modifies this
      ensures r == AddCommandRun(env, name, command, args, workdir, mode).result
      ensures trace == old(trace) + AddCommandRun(env, name, command, args, workdir, mode).effects
      ensures Current() == ApplyAll(old(Current()), AddCommandRun(env, name, command, args, workdir, mode).effects)
    {
      var nameCheck := ValidateName(name);
      if nameCheck.Err? {
        BlankNameFailsFirst(env, name, command, args, workdir, mode);
        return Err(nameCheck.error);
      }
      if workdir.Some? {
        var dirCheck := ValidateDirectory(env.fs, workdir.value);
        if dirCheck.Err? {
          BadWorkdirHasNoEffect(env, name, command, args, workdir, mode);
          return Err(dirCheck.error);
        }
      }
      var startupCommand := BuildCommand(command, args, workdir, mode);
      ghost var before := Current();
      ghost var scriptEffects: seq<Effect> := [];
      var content := VbscriptContent(startupCommand, env.hash);
      if mode == VBScript && content.Some? {
        var written := CreateVbscriptFile(content.value.0, content.value.1);
        if written.Err? {
          ScriptFailureAbortsRun(env, name, command, args, workdir);
          return written;
        }
        scriptEffects := ScriptFileRun(env, content.value.0, content.value.1).effects;
      }
      var entry := StartupEntry(name, ToRegistryValue(startupCommand, env.hash));
      RunReachesAdd(env, name, command, args, workdir, mode, scriptEffects);
      if env.addFailure.Some? {
        return Err(env.addFailure.value);
      }
      ghost var mid := Current();
      AddEntryStep(entry);
      ApplyAllAppend(before, scriptEffects, [RegistryAdd(entry)]);
      assert ApplyAll(mid, [RegistryAdd(entry)]) == Apply(mid, RegistryAdd(entry));
      r := Ok(());
    }
  }
}
