/** How the two halves of the program fit together: the registry values the
    encoder writes (src/domain/models.rs) and the executable names the process
    manager reads back out of them (src/infrastructure/process.rs) when an
    entry's processes are to be killed. */
module Agreement {
  import opened Shared
  import opened Text
  import opened Models
  import opened Process

  /** Every VBScript-mode value resolves to `wscript.exe`, whatever the
      command, its arguments and the working directory: killing such an entry
      kills every `wscript.exe`. */
  lemma VbscriptResolvesToWscript(command: string, args: seq<string>, workdir: Option<string>, hash: Hasher)
    ensures ExtractExecutableName(ToRegistryValue(CommandWithArgs(command, args, workdir, VBScript), hash))
            == Some(WSCRIPT)
  {
    var rest := LAUNCHER_DIR + ScriptFileName(hash(CommandLine(command, args))) + "\"";
    var v := ToRegistryValue(CommandWithArgs(command, args, workdir, VBScript), hash);
    assert v == WSCRIPT_INVOCATION + rest;
    ConcatAssoc(WSCRIPT, " //B //Nologo ", rest);
    ContainsPrefix(WSCRIPT, " //B //Nologo " + rest);
  }

  /** Visible mode with a working directory resolves to `cmd.exe`, unless the
      directory or the command line itself names one of the two markers that
      are looked for first. */
  lemma VisibleWorkdirResolvesToCmd(command: string, args: seq<string>, dir: string, hash: Hasher)
    requires !Contains(dir, WSCRIPT) && !Contains(dir, POWERSHELL)
    requires !Contains(CommandLine(command, args), WSCRIPT) && !Contains(CommandLine(command, args), POWERSHELL)
    ensures ExtractExecutableName(ToRegistryValue(CommandWithArgs(command, args, Some(dir), Visible), hash))
            == Some(CMD)
  {
    var line := CommandLine(command, args);
    var v := ToRegistryValue(CommandWithArgs(command, args, Some(dir), Visible), hash);
    CmdWrapperFree(dir, line, WSCRIPT);
    CmdWrapperFree(dir, line, POWERSHELL);
    assert v == CMD + (" /c \"cd /d \"" + dir + "\" && " + line + "\"");
    ContainsPrefix(CMD, " /c \"cd /d \"" + dir + "\" && " + line + "\"");
  }

  /** The `cmd.exe` wrapper adds neither marker of its own. */
  lemma CmdWrapperFree(dir: string, line: string, m: string)
    requires m == WSCRIPT || m == POWERSHELL
    requires !Contains(dir, m) && !Contains(line, m)
    ensures !Contains(CMD + " /c \"cd /d \"" + dir + "\" && " + line + "\"", m)
  {
    var a1 := CMD + " /c \"cd /d \"";
    NotContainsWithoutChar(a1, m);
    NotContainsJoined(a1, dir, m);
    var a2 := a1 + dir;
    NotContainsWithoutChar("\" && ", m);
    NotContainsJoined(a2, "\" && ", m);
    var a3 := a2 + "\" && ";
    assert a3[|a3| - 1] == ' ';
    NotContainsJoined(a3, line, m);
    var a4 := a3 + line;
    NotContainsWithoutChar("\"", m);
    NotContainsJoined(a4, "\"", m);
  }

  /** Visible mode without a working directory stores the command line, which
      resolves to the program itself when that is a single word ending in
      `.exe` and no marker appears anywhere in the line. */
  lemma VisibleDirectResolvesToProgram(command: string, args: seq<string>, hash: Hasher)
    requires command != [] && NoWhitespace(command) && EndsWith(command, EXE)
    requires !Contains(CommandLine(command, args), WSCRIPT)
    requires !Contains(CommandLine(command, args), POWERSHELL)
    requires !Contains(CommandLine(command, args), CMD)
    ensures ExtractExecutableName(ToRegistryValue(CommandWithArgs(command, args, None, Visible), hash))
            == Some(command)
  {
    FirstWordOfLine(command, args);
    DirectExecutable(CommandLine(command, args));
  }

  /** The first word of a command line is the program, when the program is a
      single word. */
  lemma FirstWordOfLine(command: string, args: seq<string>)
    requires command != [] && NoWhitespace(command)
    ensures FirstToken(CommandLine(command, args)) == Some(command)
  {
    if args == [] {
      FirstTokenOfWordOnly(command);
    } else {
      assert CommandLine(command, args) == command + [' '] + Join(args, " ");
      FirstTokenOfWord(command, ' ', Join(args, " "));
    }
  }

  /** The PowerShell invocation never mentions `wscript.exe` by itself, and
      the marker first appears where the inline command starts. */
  lemma PowerShellPrefixParts()
    ensures PowerShellPrefix() == PowerShellHead() + COMMAND_MARKER
    ensures !Contains(PowerShellPrefix(), WSCRIPT)
    ensures 'C' !in PowerShellHead()
  {
    PowerShellHeadFree();
    NotContainsWithoutChar(COMMAND_MARKER, WSCRIPT);
    NotContainsJoined(PowerShellHead(), COMMAND_MARKER, WSCRIPT);
  }

  lemma PowerShellHeadFree()
    ensures !Contains(PowerShellHead(), WSCRIPT)
  {
    var m := WSCRIPT;
    var p1 := "powershell.exe";
    NotContainsMissingChar(p1, m, 4);
    NotContainsMissingChar(" -WindowStyle", m, 2);
    NotContainsJoined(p1, " -WindowStyle", m);
    var p2 := p1 + " -WindowStyle";
    NotContainsWithoutChar(" Hidden", m);
    NotContainsJoined(p2, " Hidden", m);
    var p3 := p2 + " Hidden";
    NotContainsWithoutChar(" -NoProfile", m);
    NotContainsJoined(p3, " -NoProfile", m);
    NotContainsWithoutChar(" -", m);
    NotContainsJoined(p3 + " -NoProfile", " -", m);
  }

  /** PowerShell mode without a working directory resolves to the program
      with `.exe` appended, when the program is a single word and the command
      line has no `"` and does not mention `wscript.exe`. */
  lemma PowerShellResolvesToProgram(command: string, args: seq<string>, hash: Hasher)
    requires command != [] && NoWhitespace(command)
    requires '"' !in CommandLine(command, args) && !Contains(CommandLine(command, args), WSCRIPT)
    ensures ExtractExecutableName(ToRegistryValue(CommandWithArgs(command, args, None, PowerShellHidden), hash))
            == Some(command + EXE)
  {
    var line := CommandLine(command, args);
    var v := ToRegistryValue(CommandWithArgs(command, args, None, PowerShellHidden), hash);
    PowerShellPrefixParts();
    PowerShellInvocation(v, line);
    FirstWordOfLine(command, args);
  }

  /** The inline command of a PowerShell invocation is read back whole when it
      has no `"`. */
  lemma PowerShellInvocation(v: string, inner: string)
    requires v == PowerShellPrefix() + inner + "\""
    requires '"' !in inner && !Contains(inner, WSCRIPT)
    ensures !Contains(v, WSCRIPT) && Contains(v, POWERSHELL)
    ensures PowerShellInnerProgram(v) == FirstToken(inner)
  {
    PowerShellPrefixParts();
    NotContainsJoined(PowerShellPrefix(), inner, WSCRIPT);
    NotContainsWithoutChar("\"", WSCRIPT);
    NotContainsJoined(PowerShellPrefix() + inner, "\"", WSCRIPT);
    assert v == POWERSHELL + (" -WindowStyle" + " Hidden" + " -NoProfile" + " -" + COMMAND_MARKER + inner + "\"");
    ContainsPrefix(POWERSHELL, " -WindowStyle" + " Hidden" + " -NoProfile" + " -" + COMMAND_MARKER + inner + "\"");
    var head := PowerShellHead();
    assert v == head + COMMAND_MARKER + (inner + "\"");
    FindMarkerAfter(head, COMMAND_MARKER, inner + "\"");
    var afterCommand := v[|head| + 9..];
    assert afterCommand == inner + "\"";
    FindCharAfter(inner, '"', []);
    assert inner + ['"'] + [] == afterCommand;
    assert afterCommand[..|inner|] == inner;
  }

  /** PowerShell mode with a working directory resolves to `Set-Location.exe`,
      the first word of the inline command, whatever the program: the kill for
      such an entry looks for an executable that is not the program it
      started. */
  lemma PowerShellWorkdirResolvesToSetLocation(command: string, args: seq<string>, dir: string, hash: Hasher)
    requires '"' !in dir && '"' !in CommandLine(command, args)
    requires !Contains(dir, WSCRIPT) && !Contains(CommandLine(command, args), WSCRIPT)
    ensures ExtractExecutableName(ToRegistryValue(CommandWithArgs(command, args, Some(dir), PowerShellHidden), hash))
            == Some("Set-Location" + EXE)
  {
    var line := CommandLine(command, args);
    var v := ToRegistryValue(CommandWithArgs(command, args, Some(dir), PowerShellHidden), hash);
    var rest := "'" + dir + "'; " + line;
    var inner := "Set-Location" + [' '] + rest;
    assert v == PowerShellPrefix() + inner + "\"";
    SetLocationFree(dir, line);
    PowerShellInvocation(v, inner);
    SetLocationIsOneWord();
    FirstTokenOfWord("Set-Location", ' ', rest);
  }

  lemma SetLocationIsOneWord()
    ensures NoWhitespace("Set-Location")
  {
    var w := "Set-Location";
    forall i | 0 <= i < |w| ensures !IsWhitespace(w[i]) {
      assert '-' <= w[i] <= 't';
    }
  }

  /** The `Set-Location` step adds no `"` and no `wscript.exe`. */
  lemma SetLocationFree(dir: string, line: string)
    requires '"' !in dir && '"' !in line
    requires !Contains(dir, WSCRIPT) && !Contains(line, WSCRIPT)
    ensures var inner := "Set-Location" + [' '] + ("'" + dir + "'; " + line);
            '"' !in inner && !Contains(inner, WSCRIPT)
  {
    var m := WSCRIPT;
    var a1 := "Set-Location" + [' '] + "'";
    NotContainsWithoutChar(a1, m);
    NotContainsJoined(a1, dir, m);
    var a2 := a1 + dir;
    NotContainsWithoutChar("'; ", m);
    NotContainsJoined(a2, "'; ", m);
    var a3 := a2 + "'; ";
    assert a3[|a3| - 1] == ' ';
    NotContainsJoined(a3, line, m);
    assert "Set-Location" + [' '] + ("'" + dir + "'; " + line) == a3 + line;
  }
}
