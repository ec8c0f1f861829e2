/** The command encoder (src/domain/models.rs): a startup command becomes the
    string stored under the per-user Run key and, in VBScript mode, the launcher
    script that string points at. */
module Models {
  import opened Shared
  import opened Text

  /** A value of `DefaultHasher::finish`. */
  type U64 = n: nat | n < 0x1_0000_0000_0000_0000

  /** `DefaultHasher` fed with a command line. Its algorithm is not modelled:
      the encoder is given it as a deterministic function, and nothing here
      depends on its values. */
  type Hasher = string -> U64

  /** A named value under the Run key. */
  datatype StartupEntry = StartupEntry(name: string, command: string)

  /** How a command is wrapped so that it starts without (or with) a window. */
  datatype ExecutionMode = VBScript | PowerShellHidden | Visible

  /** `ExecutionMode::default()`. */
  const DEFAULT_MODE: ExecutionMode := VBScript

  datatype StartupCommand =
    | Executable(path: string)
    | CommandWithArgs(command: string, args: seq<string>, workdir: Option<string>, mode: ExecutionMode)

  // ---------------------------------------------------------------------
  // The command line
  // ---------------------------------------------------------------------

  /** The program followed by its arguments, one space apart, none of them quoted. */
  function CommandLine(command: string, args: seq<string>): string {
    if args == [] then command else command + " " + Join(args, " ")
  }

  /** The command line is the bare program exactly when there are no arguments;
      otherwise each argument follows the program after a single space, as is. */
  lemma CommandLineShape(command: string, args: seq<string>)
    ensures CommandLine(command, args) == command <==> args == []
    ensures CommandLine(command, args) == command + SpaceEach(args)
  {
    if args != [] {
      JoinSpaceEach(args);
      assert CommandLine(command, args) == command + (" " + Join(args, " "));
      assert |CommandLine(command, args)| > |command|;
    }
  }

  // ---------------------------------------------------------------------
  // VBScript mode: the launcher file and the registry value pointing at it
  // ---------------------------------------------------------------------

  const SCRIPT_PREFIX: string := "launcher_"
  const SCRIPT_SUFFIX: string := ".vbs"

  /** `launcher_{:x}.vbs` for a hash value. */
  function ScriptFileName(h: U64): string {
    SCRIPT_PREFIX + Hex(h) + SCRIPT_SUFFIX
  }

  /** Two launcher names coincide exactly when the hashes they were made from do. */
  lemma ScriptFileNameInjective(h1: U64, h2: U64)
    ensures ScriptFileName(h1) == ScriptFileName(h2) <==> h1 == h2
  {
    if ScriptFileName(h1) == ScriptFileName(h2) {
      var n1, n2 := ScriptFileName(h1), ScriptFileName(h2);
      assert |Hex(h1)| == |Hex(h2)|;
      assert Hex(h1) == n1[|SCRIPT_PREFIX|..|n1| - |SCRIPT_SUFFIX|];
      assert Hex(h2) == n2[|SCRIPT_PREFIX|..|n2| - |SCRIPT_SUFFIX|];
      NumeralInjective(h1, h2, 16);
    }
  }

  /** The host invocation: no error dialogs, no banner. */
  const WSCRIPT_INVOCATION: string := "wscript.exe" + " //B //Nologo "
  /** The directory under `%APPDATA%` that holds the launchers. */
  const APP_DIR_NAME: string := "windows_startup_manager"
  /** The quoted launcher directory, left for Windows to expand. */
  const LAUNCHER_DIR: string := "\"%APPDATA%\\" + APP_DIR_NAME + "\\"

  /** `generate_vbscript_wrapper`: the returned string only. The script text it
      builds and drops has no effect, so its `workdir` parameter is not taken. */
  function GenerateVbscriptWrapper(commandLine: string, hash: Hasher): (r: string)
    ensures StartsWith(r, WSCRIPT_INVOCATION)
  {
    WSCRIPT_INVOCATION + (LAUNCHER_DIR + ScriptFileName(hash(commandLine)) + "\"")
  }

  /** VBScript string-literal escaping: every `"` doubled (`replace("\"", "\"\"")`). */
  function DoubleQuotes(s: string): (r: string)
    ensures '"' !in s ==> r == s
    ensures |r| >= |s|
  {
    if s == [] then []
    else (if s[0] == '"' then "\"\"" else [s[0]]) + DoubleQuotes(s[1..])
  }

  /** Reads the rest of a VBScript string literal whose opening quote has been
      consumed: `""` stands for one quote and a lone `"` closes the literal.
      Gives the literal's value and the text after the closing quote. */
  function ReadVbsString(t: string): (r: Option<(string, string)>)
    decreases |t|
  {
    if t == [] then None
    else if t[0] == '"' then
      if |t| > 1 && t[1] == '"' then
        match ReadVbsString(t[2..])
        case None => None
        case Some((v, rest)) => Some(("\"" + v, rest))
      else Some(([], t[1..]))
    else
      match ReadVbsString(t[1..])
      case None => None
      case Some((v, rest)) => Some(([t[0]] + v, rest))
  }

  /** Escaping then closing a literal reads back the original text. */
  lemma {:induction false} ReadDoubledQuotes(s: string, rest: string)
    requires rest == [] || rest[0] != '"'
    ensures ReadVbsString(DoubleQuotes(s) + "\"" + rest) == Some((s, rest))
  {
    if s == [] {
      var t := "\"" + rest;
      assert t[1..] == rest;
    } else {
      var tail := DoubleQuotes(s[1..]) + "\"" + rest;
      ReadDoubledQuotes(s[1..], rest);
      if s[0] == '"' {
        QuotedTail("\"\"", DoubleQuotes(s[1..]), rest);
        ReadAfterEscapedQuote(tail, s[1..], rest);
      } else {
        QuotedTail([s[0]], DoubleQuotes(s[1..]), rest);
        ReadAfterPlainChar(s[0], tail, s[1..], rest);
      }
      assert [s[0]] + s[1..] == s;
    }
  }

  lemma QuotedTail(p: string, d: string, rest: string)
    ensures p + d + "\"" + rest == p + (d + "\"" + rest)
  {
  }

  /** An escaped quote contributes one quote to the literal's value. */
  lemma ReadAfterEscapedQuote(t: string, v: string, rest: string)
    requires ReadVbsString(t) == Some((v, rest))
    ensures ReadVbsString("\"\"" + t) == Some(("\"" + v, rest))
  {
    assert ("\"\"" + t)[2..] == t;
  }

  /** Any other character stands for itself. */
  lemma ReadAfterPlainChar(c: char, t: string, v: string, rest: string)
    requires c != '"' && ReadVbsString(t) == Some((v, rest))
    ensures ReadVbsString([c] + t) == Some(([c] + v, rest))
  {
    assert ([c] + t)[1..] == t;
  }

  const SHELL_LINE: string := "Set WshShell = CreateObject(\"WScript.Shell\")\n"
  const CHDIR_OPEN: string := "WshShell.CurrentDirectory = \""
  const RUN_OPEN: string := "WshShell.Run \""
  const RUN_CLOSE: string := "\", 0, False"

  /** The launcher script: create the shell object, optionally change its
      current directory, then run the command line hidden without waiting. */
  function ScriptBody(commandLine: string, workdir: Option<string>): string {
    SHELL_LINE + ChdirLine(workdir) + RunLine(commandLine)
  }

  function ChdirLine(workdir: Option<string>): string {
    match workdir
    case Some(dir) => CHDIR_OPEN + DoubleQuotes(dir) + "\"\n"
    case None => []
  }

  function RunLine(commandLine: string): string {
    RUN_OPEN + DoubleQuotes(commandLine) + RUN_CLOSE
  }

  /** Recognises a launcher script and recovers the directory it changes to
      (if any) and the command line it runs: the inverse of `ScriptBody`. */
  function ParseScript(body: string): Option<(Option<string>, string)> {
    if !StartsWith(body, SHELL_LINE) then None
    else ParseStatements(body[|SHELL_LINE|..])
  }

  function ParseStatements(t: string): Option<(Option<string>, string)> {
    if StartsWith(t, CHDIR_OPEN) then
      match ParseChdir(t[|CHDIR_OPEN|..])
      case None => None
      case Some((dir, run)) =>
        (match ParseRun(run)
         case None => None
         case Some(line) => Some((Some(dir), line)))
    else
      match ParseRun(t)
      case None => None
      case Some(line) => Some((None, line))
  }

  /** The directory literal and the text after its line break. */
  function ParseChdir(t: string): Option<(string, string)> {
    match ReadVbsString(t)
    case None => None
    case Some((dir, tail)) => if StartsWith(tail, "\n") then Some((dir, tail[1..])) else None
  }

  /** The command-line literal of the final `Run` statement. */
  function ParseRun(t: string): Option<string> {
    if !StartsWith(t, RUN_OPEN) then None
    else match ReadVbsString(t[|RUN_OPEN|..])
      case Some((line, tail)) => if tail == RUN_CLOSE[1..] then Some(line) else None
      case None => None
  }

  lemma ParseRunOf(commandLine: string)
    ensures ParseRun(RunLine(commandLine)) == Some(commandLine)
  {
    var t := RunLine(commandLine);
    assert t[|RUN_OPEN|..] == DoubleQuotes(commandLine) + "\"" + RUN_CLOSE[1..];
    ReadDoubledQuotes(commandLine, RUN_CLOSE[1..]);
  }

  lemma ParseChdirOf(dir: string, run: string)
    ensures ParseChdir(DoubleQuotes(dir) + "\"\n" + run) == Some((dir, run))
  {
    assert DoubleQuotes(dir) + "\"\n" + run == DoubleQuotes(dir) + "\"" + ("\n" + run);
    ReadDoubledQuotes(dir, "\n" + run);
    assert ("\n" + run)[1..] == run;
  }

  /** Whatever the directory and command line, the script reads back as
      "change to exactly that directory, then run exactly that command line":
      the doubling of quotes loses nothing. */
  lemma ScriptRunsCommandLine(commandLine: string, workdir: Option<string>)
    ensures ParseScript(ScriptBody(commandLine, workdir)) == Some((workdir, commandLine))
  {
    var run := RunLine(commandLine);
    ConcatAssoc(SHELL_LINE, ChdirLine(workdir), run);
    ParseRunOf(commandLine);
    ParseAfterShellLine(ChdirLine(workdir) + run);
    match workdir
    case None =>
      assert ChdirLine(workdir) + run == run;
      ParseStatementsRun(run);
    case Some(dir) =>
      var rest := DoubleQuotes(dir) + "\"\n" + run;
      ConcatAssoc(CHDIR_OPEN + DoubleQuotes(dir), "\"\n", run);
      ConcatAssoc(CHDIR_OPEN, DoubleQuotes(dir), "\"\n" + run);
      ConcatAssoc(DoubleQuotes(dir), "\"\n", run);
      ParseChdirOf(dir, run);
      ParseStatementsChdir(rest);
  }

  lemma ConcatAssoc(a: string, b: string, c: string)
    ensures a + b + c == a + (b + c)
  {
  }

  lemma ParseAfterShellLine(t: string)
    ensures ParseScript(SHELL_LINE + t) == ParseStatements(t)
  {
    assert (SHELL_LINE + t)[|SHELL_LINE|..] == t;
  }

  lemma ParseStatementsRun(run: string)
    requires StartsWith(run, RUN_OPEN)
    ensures ParseStatements(run) == match ParseRun(run)
                                    case None => None
                                    case Some(line) => Some((None, line))
  {
    assert run[9] == RUN_OPEN[9] == 'R' && CHDIR_OPEN[9] == 'C';
  }

  lemma ParseStatementsChdir(rest: string)
    ensures ParseStatements(CHDIR_OPEN + rest) == match ParseChdir(rest)
      case None => None
      case Some((dir, run)) =>
        (match ParseRun(run)
         case None => None
         case Some(line) => Some((Some(dir), line)))
  {
    assert (CHDIR_OPEN + rest)[|CHDIR_OPEN|..] == rest;
  }

  /** `get_vbscript_content`: the launcher's file name and text, for VBScript mode only. */
  function VbscriptContent(cmd: StartupCommand, hash: Hasher): (r: Option<(string, string)>)
    ensures r.Some? <==> cmd.CommandWithArgs? && cmd.mode == VBScript
    ensures r.Some? ==> StartsWith(r.value.0, "launcher_") && EndsWith(r.value.0, ".vbs")
  {
    match cmd
    case CommandWithArgs(command, args, workdir, VBScript) =>
      var line := CommandLine(command, args);
      var name := ScriptFileName(hash(line));
      assert name == "launcher_" + (Hex(hash(line)) + ".vbs");
      Some((name, ScriptBody(line, workdir)))
    case _ => None
  }

  // ---------------------------------------------------------------------
  // The registry value
  // ---------------------------------------------------------------------

  /** `to_registry_value`. */
  function ToRegistryValue(cmd: StartupCommand, hash: Hasher): (r: string)
    ensures cmd.Executable? ==> r == cmd.path
  {
    match cmd
    case Executable(path) => path
    case CommandWithArgs(command, args, workdir, mode) =>
      var line := CommandLine(command, args);
      match mode
      case VBScript => GenerateVbscriptWrapper(line, hash)
      case PowerShellHidden =>
        (match workdir
         case Some(dir) => PowerShellPrefix() + "Set-Location" + " '" + dir + "'; " + line + "\""
         case None => PowerShellPrefix() + line + "\"")
      case Visible =>
        (match workdir
         case Some(dir) => "cmd.exe" + " /c \"cd /d \"" + dir + "\" && " + line + "\""
         case None => line)
  }

  /** The PowerShell invocation up to its `-Command` option: no window, no
      profile scripts. */
  function PowerShellHead(): string {
    "powershell.exe" + " -WindowStyle" + " Hidden" + " -NoProfile" + " -"
  }

  /** `powershell.exe -WindowStyle Hidden -NoProfile -Command "`: what comes
      before the inline command. */
  function PowerShellPrefix(): string {
    PowerShellHead() + "Command \""
  }

  /** In VBScript mode the registry value names precisely the launcher file
      that `get_vbscript_content` produces, under %APPDATA%, whatever the
      working directory (which only the script text carries). */
  lemma VbscriptValueNamesLauncher(command: string, args: seq<string>, workdir: Option<string>, hash: Hasher)
    ensures VbscriptContent(CommandWithArgs(command, args, workdir, VBScript), hash).Some?
    ensures ToRegistryValue(CommandWithArgs(command, args, workdir, VBScript), hash)
            == WSCRIPT_INVOCATION + LAUNCHER_DIR
               + VbscriptContent(CommandWithArgs(command, args, workdir, VBScript), hash).value.0 + "\""
    ensures ParseScript(VbscriptContent(CommandWithArgs(command, args, workdir, VBScript), hash).value.1)
            == Some((workdir, CommandLine(command, args)))
  {
    var line := CommandLine(command, args);
    ScriptRunsCommandLine(line, workdir);
    var name := ScriptFileName(hash(line));
    ConcatAssoc(WSCRIPT_INVOCATION, LAUNCHER_DIR, name);
    ConcatAssoc(WSCRIPT_INVOCATION, LAUNCHER_DIR + name, "\"");
  }

  /** Two VBScript-mode commands share a launcher file exactly when their
      command lines hash alike; the working directory plays no part. */
  lemma LauncherSharedIffSameHash(c1: StartupCommand, c2: StartupCommand, hash: Hasher)
    requires c1.CommandWithArgs? && c1.mode == VBScript
    requires c2.CommandWithArgs? && c2.mode == VBScript
    ensures VbscriptContent(c1, hash).value.0 == VbscriptContent(c2, hash).value.0
            <==> hash(CommandLine(c1.command, c1.args)) == hash(CommandLine(c2.command, c2.args))
    ensures CommandLine(c1.command, c1.args) == CommandLine(c2.command, c2.args)
            ==> ToRegistryValue(c1, hash) == ToRegistryValue(c2, hash)
  {
    ScriptFileNameInjective(hash(CommandLine(c1.command, c1.args)), hash(CommandLine(c2.command, c2.args)));
  }

  /** PowerShell mode puts the command line, unescaped, between `-Command "`
      and the closing `"`; with a working directory `Set-Location '<dir>'; `
      comes first. */
  lemma PowerShellShape(command: string, args: seq<string>, workdir: Option<string>, hash: Hasher)
    ensures var v := ToRegistryValue(CommandWithArgs(command, args, workdir, PowerShellHidden), hash);
            var line := CommandLine(command, args);
            StartsWith(v, PowerShellPrefix()) && EndsWith(v, line + "\"")
            && (workdir.None? ==> v[|PowerShellPrefix()|..|v| - 1] == line)
            && (workdir.Some? ==> v[|PowerShellPrefix()|..|v| - |line| - 1] == "Set-Location '" + workdir.value + "'; ")
  {
    var v := ToRegistryValue(CommandWithArgs(command, args, workdir, PowerShellHidden), hash);
    var line := CommandLine(command, args);
    var p := PowerShellPrefix();
    match workdir
    case None =>
      assert v == p + line + "\"";
      assert v == p + [] + (line + "\"");
      Enclosed(p, line, "\"");
      Enclosed(p, [], line + "\"");
    case Some(dir) =>
      var lead := "Set-Location '" + dir + "'; ";
      assert v == p + (lead + line + "\"");
      assert v == p + lead + (line + "\"");
      Enclosed(p, lead, line + "\"");
  }

  /** The pieces of `p + lead + tail`, read back by position. */
  lemma Enclosed(p: string, lead: string, tail: string)
    ensures var v := p + lead + tail;
            StartsWith(v, p) && EndsWith(v, tail) && v[|p|..] == lead + tail
            && StartsWith(v[|p|..], lead) && v[|p|..|v| - |tail|] == lead
  {
    var v := p + lead + tail;
    assert v[|p|..] == lead + tail;
    assert (lead + tail)[..|lead|] == lead;
  }

  /** Visible mode without a working directory stores the command line itself;
      with one it wraps it in `cmd.exe /c "cd /d "<dir>" && <line>"`. */
  lemma VisibleShape(command: string, args: seq<string>, workdir: Option<string>, hash: Hasher)
    ensures var v := ToRegistryValue(CommandWithArgs(command, args, workdir, Visible), hash);
            (workdir.None? ==> v == CommandLine(command, args))
            && (workdir.Some? ==>
                  && StartsWith(v, "cmd.exe" + " /c \"cd /d \"")
                  && EndsWith(v, CommandLine(command, args) + "\"")
                  && v[|"cmd.exe" + " /c \"cd /d \""|..|v| - |CommandLine(command, args)| - 1]
                     == workdir.value + "\" && ")
  {
    var v := ToRegistryValue(CommandWithArgs(command, args, workdir, Visible), hash);
    var line := CommandLine(command, args);
    if workdir.Some? {
      var p := "cmd.exe" + " /c \"cd /d \"";
      var lead := workdir.value + "\" && ";
      assert v == p + (lead + line + "\"");
      assert v == p + lead + (line + "\"");
      Enclosed(p, lead, line + "\"");
    }
  }
}
