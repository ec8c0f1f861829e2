/** The process manager (src/infrastructure/process.rs) minus the subprocesses:
    recovering an executable name from a registry value, reading the captured
    `wmic` listing, and reading the captured `taskkill` outcome. */
module Process {
  import opened Shared
  import opened Text

  const WSCRIPT: string := "wscript.exe"
  const POWERSHELL: string := "powershell.exe"
  const CMD: string := "cmd.exe"
  const EXE: string := ".exe"
  /** The marker in front of PowerShell's inline command; nine characters long. */
  const COMMAND_MARKER: string := "Command \""

  // ---------------------------------------------------------------------
  // extract_executable_name
  // ---------------------------------------------------------------------

  /** `extract_executable_name`: the first rule that applies wins. A VBScript
      launcher is `wscript.exe`; a PowerShell invocation is the first word of
      its quoted inline command with `.exe` appended (or `powershell.exe` when
      there is none); a `cmd.exe` wrapper is `cmd.exe`; otherwise the first
      word, if it ends in `.exe`. */
  function ExtractExecutableName(command: string): (r: Option<string>)
    ensures r.Some? ==> EndsWith(r.value, EXE)
    ensures Contains(command, WSCRIPT) ==> r == Some(WSCRIPT)
    ensures !Contains(command, WSCRIPT) && !Contains(command, POWERSHELL) && Contains(command, CMD)
            ==> r == Some(CMD)
    ensures r.None? ==> !Contains(command, WSCRIPT) && !Contains(command, POWERSHELL)
                        && !Contains(command, CMD)
  {
    if Contains(command, WSCRIPT) then Some(WSCRIPT)
    else if Contains(command, POWERSHELL) then
      match PowerShellInnerProgram(command)
      case Some(exe) => Some(exe + EXE)
      case None => Some(POWERSHELL)
    else if Contains(command, CMD) then Some(CMD)
    else
      match FirstToken(command)
      case Some(exe) => if EndsWith(exe, EXE) then Some(exe) else None
      case None => None
  }

  /** The first word of the text between the first `Command "` and the next
      `"`, if both are there and the text is not blank. */
  function PowerShellInnerProgram(command: string): (r: Option<string>)
    ensures r.Some? ==> r.value != [] && NoWhitespace(r.value)
  {
    match Find(command, COMMAND_MARKER)
    case None => None
    case Some(start) =>
      var afterCommand := command[start + 9..];
      match Find(afterCommand, "\"")
      case None => None
      case Some(end) => FirstToken(afterCommand[..end])
  }

  /** The PowerShell rule in full: without `Command "`, without a closing `"`
      after it, or with only whitespace in between, the result is
      `powershell.exe`; otherwise it is the first word in between with `.exe`
      appended. */
  lemma PowerShellBranch(command: string)
    requires !Contains(command, WSCRIPT) && Contains(command, POWERSHELL)
    ensures !Contains(command, COMMAND_MARKER) ==> ExtractExecutableName(command) == Some(POWERSHELL)
    ensures Contains(command, COMMAND_MARKER) ==>
              var after := command[Find(command, COMMAND_MARKER).value + |COMMAND_MARKER|..];
              && (!Contains(after, "\"") ==> ExtractExecutableName(command) == Some(POWERSHELL))
              && (Contains(after, "\"") ==>
                    var inner := after[..Find(after, "\"").value];
                    && (AllWhitespace(inner) ==> ExtractExecutableName(command) == Some(POWERSHELL))
                    && (!AllWhitespace(inner) ==> ExtractExecutableName(command) == Some(FirstToken(inner).value + EXE)))
  {
  }

  /** When the value names no wrapper, the result is the first word exactly
      when that word ends in `.exe`; a blank value gives nothing. */
  lemma DirectExecutable(command: string)
    requires !Contains(command, WSCRIPT) && !Contains(command, POWERSHELL) && !Contains(command, CMD)
    ensures ExtractExecutableName(command).Some?
            <==> FirstToken(command).Some? && EndsWith(FirstToken(command).value, EXE)
    ensures ExtractExecutableName(command).Some? ==> ExtractExecutableName(command) == FirstToken(command)
    ensures AllWhitespace(command) ==> ExtractExecutableName(command).None?
  {
  }

  /** In the PowerShell rule `.exe` is appended to the inline program even when
      it already ends in `.exe`. */
  lemma PowerShellAlwaysAppends(command: string, program: string)
    requires !Contains(command, WSCRIPT) && Contains(command, POWERSHELL)
    requires PowerShellInnerProgram(command) == Some(program)
    ensures ExtractExecutableName(command) == Some(program + EXE)
    ensures EndsWith(program, EXE) ==> EndsWith(ExtractExecutableName(command).value, ".exe.exe")
  {
    if EndsWith(program, EXE) {
      var r := program + EXE;
      assert r[|r| - 8..] == program[|program| - 4..] + EXE;
    }
  }

  // ---------------------------------------------------------------------
  // The `wmic process get ProcessId,Name,CommandLine /format:csv` listing
  // ---------------------------------------------------------------------

  datatype ProcessInfo = ProcessInfo(pid: nat, name: string, commandLine: string)

  /** One data line: blank lines and lines without three comma-separated fields
      or without a 32-bit process id in the third field are dropped. A line
      trims to nothing exactly when it is all whitespace (`TrimEmptyIff`). */
  function ParseProcessLine(line: string): (p: Option<ProcessInfo>)
    ensures p.Some? ==> p.value.pid < U32_LIMIT
    ensures p.Some? ==> Trim(line) != [] && |Split(line, ',')| >= 3
    ensures p.Some? <==> !AllWhitespace(line) && |Split(line, ',')| >= 3
                         && ParseU32(Trim(Split(line, ',')[2])).Some?
    ensures p.Some? ==> ParseU32(Trim(Split(line, ',')[2])) == Some(p.value.pid)
                        && p.value.name == Trim(Split(line, ',')[1])
                        && p.value.commandLine == Trim(Split(line, ',')[0])
  {
    TrimEmptyIff(line);
    if AllWhitespace(line) then None else ParseFields(Split(line, ','))
  }

  /** The command line, name and process id fields of a split data line. */
  function ParseFields(parts: seq<string>): (p: Option<ProcessInfo>)
    ensures p.Some? ==> |parts| >= 3 && p.value.pid < U32_LIMIT
  {
    if |parts| >= 3 then
      match ParseU32(Trim(parts[2]))
      case Some(pid) => Some(ProcessInfo(pid, Trim(parts[1]), Trim(parts[0])))
      case None => None
    else None
  }

  /** The text of a data line with the three fields in the order they are read. */
  function ProcessRow(p: ProcessInfo): string {
    p.commandLine + "," + p.name + "," + Numeral(p.pid, 10)
  }

  /** A field that neither contains a comma nor starts or ends with whitespace. */
  predicate CleanField(f: string) {
    ',' !in f && (f == [] || (!IsWhitespace(f[0]) && !IsWhitespace(f[|f| - 1])))
  }

  /** A row written from a process record with clean text fields and a 32-bit
      id reads back as that record. */
  lemma ParseProcessRow(p: ProcessInfo)
    requires p.pid < U32_LIMIT && CleanField(p.commandLine) && CleanField(p.name)
    ensures ParseProcessLine(ProcessRow(p)) == Some(p)
  {
    SplitRow(p);
    ParseCleanFields(p);
    RowNotBlank(p);
    TrimEmptyIff(ProcessRow(p));
  }

  /** The row splits back into its three fields. */
  lemma SplitRow(p: ProcessInfo)
    requires ',' !in p.commandLine && ',' !in p.name
    ensures Split(ProcessRow(p), ',') == [p.commandLine, p.name, Numeral(p.pid, 10)]
  {
    RowFields(p);
    SplitJoined([p.commandLine, p.name, Numeral(p.pid, 10)], ',');
  }

  /** Clean fields survive trimming and the decimal id parses back. */
  lemma ParseCleanFields(p: ProcessInfo)
    requires p.pid < U32_LIMIT && CleanField(p.commandLine) && CleanField(p.name)
    ensures ParseFields([p.commandLine, p.name, Numeral(p.pid, 10)]) == Some(p)
  {
    var parts := [p.commandLine, p.name, Numeral(p.pid, 10)];
    assert parts[0] == p.commandLine && parts[1] == p.name && parts[2] == Numeral(p.pid, 10);
    TrimOfTrimmed(p.commandLine);
    TrimOfTrimmed(p.name);
    IdFieldParses(p.pid);
    ParseThreeFields(parts, p.pid);
  }

  /** A data line as `wmic` writes it: the command line, the name and the id,
      each padded as it may be and without a comma, possibly followed by more
      fields. The line is kept, with the trimmed fields as its record; what
      follows the third field plays no part. */
  lemma ParsePaddedLine(commandLine: string, name: string, id: string, rest: string, pid: nat)
    requires ',' !in commandLine && ',' !in name && ',' !in id
    requires rest == [] || rest[0] == ','
    requires ParseU32(Trim(id)) == Some(pid)
    ensures ParseProcessLine(commandLine + "," + name + "," + id + rest)
            == Some(ProcessInfo(pid, Trim(name), Trim(commandLine)))
  {
    var line := commandLine + "," + name + "," + id + rest;
    SplitDataLine(commandLine, name, id, rest);
    ParseThreeFields(Split(line, ','), pid);
  }

  /** The first three fields of such a line, as `split(',')` gives them; the
      line is not blank, since it holds a comma. */
  lemma SplitDataLine(commandLine: string, name: string, id: string, rest: string)
    requires ',' !in commandLine && ',' !in name && ',' !in id
    requires rest == [] || rest[0] == ','
    ensures var line := commandLine + "," + name + "," + id + rest;
            var parts := Split(line, ',');
            && !AllWhitespace(line)
            && |parts| >= 3 && parts[0] == commandLine && parts[1] == name && parts[2] == id
  {
    var t2 := id + rest;
    SplitFieldThenRest(id, rest);
    var t1 := name + [','] + t2;
    SplitAtFirst(name, ',', t2);
    var t0 := commandLine + [','] + t1;
    SplitAtFirst(commandLine, ',', t1);
    assert t0[|commandLine|] == ',';
    Regroup(commandLine, name, id, rest);
  }

  /** The line regrouped field by field. */
  lemma Regroup(a: string, b: string, c: string, d: string)
    ensures a + "," + b + "," + c + d == a + [','] + (b + [','] + (c + d))
  {
    assert "," == [','];
  }

  /** A field followed by nothing or by a comma is the first part of the split. */
  lemma SplitFieldThenRest(f: string, rest: string)
    requires ',' !in f && (rest == [] || rest[0] == ',')
    ensures Split(f + rest, ',')[0] == f
  {
    if rest == [] {
      assert f + rest == f;
    } else {
      assert f + rest == f + [','] + rest[1..];
      SplitAtFirst(f, ',', rest[1..]);
    }
  }

  /** At least three fields, the third a 32-bit number once trimmed, give the
      record of the trimmed first two fields. */
  lemma ParseThreeFields(parts: seq<string>, pid: nat)
    requires |parts| >= 3 && ParseU32(Trim(parts[2])) == Some(pid)
    ensures ParseFields(parts) == Some(ProcessInfo(pid, Trim(parts[1]), Trim(parts[0])))
  {
  }

  /** The decimal id field reads back as the id. */
  lemma IdFieldParses(pid: nat)
    requires pid < U32_LIMIT
    ensures ParseU32(Trim(Numeral(pid, 10))) == Some(pid)
  {
    DecimalTrimmed(pid);
    ParseU32OfDecimal(pid);
  }

  /** A decimal numeral has no whitespace to trim. */
  lemma DecimalTrimmed(n: nat)
    ensures Trim(Numeral(n, 10)) == Numeral(n, 10)
  {
    var digits := Numeral(n, 10);
    assert IsDigitOfBase(digits[0], 10) && IsDigitOfBase(digits[|digits| - 1], 10);
    TrimOfTrimmed(digits);
  }

  /** The row is the three fields joined by commas, none of which holds a comma. */
  lemma RowFields(p: ProcessInfo)
    requires ',' !in p.commandLine && ',' !in p.name
    ensures var fields := [p.commandLine, p.name, Numeral(p.pid, 10)];
            Join(fields, ",") == ProcessRow(p)
            && forall k :: 0 <= k < |fields| ==> ',' !in fields[k]
  {
    var digits := Numeral(p.pid, 10);
    var fields := [p.commandLine, p.name, digits];
    assert ',' !in digits by {
      forall i | 0 <= i < |digits| ensures digits[i] != ',' {
        assert IsDigitOfBase(digits[i], 10);
      }
    }
    assert Join(fields[2..], ",") == digits;
    assert Join(fields[1..], ",") == p.name + "," + digits;
  }

  /** A row ends in a digit, so it is never blank. */
  lemma RowNotBlank(p: ProcessInfo)
    ensures Trim(ProcessRow(p)) != []
  {
    var digits := Numeral(p.pid, 10);
    var line := ProcessRow(p);
    assert IsDigitOfBase(digits[|digits| - 1], 10);
    assert line[|line| - 1] == digits[|digits| - 1];
    TrimEmptyIff(line);
  }

  /** Each line of a run, parsed on its own. */
  function ParsedLines(lines: seq<string>): (parsed: seq<Option<ProcessInfo>>)
    ensures |parsed| == |lines|
  {
    if lines == [] then [] else ParsedLines(lines[..|lines| - 1]) + [ParseProcessLine(lines[|lines| - 1])]
  }

  lemma {:induction false} ParsedLinesAt(lines: seq<string>, i: nat)
    requires i < |lines|
    ensures ParsedLines(lines)[i] == ParseProcessLine(lines[i])
  {
    if i < |lines| - 1 {
      ParsedLinesAt(lines[..|lines| - 1], i);
    }
  }

  lemma ParsedLinesSnoc(lines: seq<string>, line: string)
    ensures ParsedLines(lines + [line]) == ParsedLines(lines) + [ParseProcessLine(line)]
  {
    assert (lines + [line])[..|lines|] == lines;
  }

  lemma RecordsSnoc(parsed: seq<Option<ProcessInfo>>, last: Option<ProcessInfo>)
    ensures Records(parsed + [last]) == Records(parsed) + (if last.Some? then [last.value] else [])
  {
    assert (parsed + [last])[..|parsed|] == parsed;
  }

  /** One more data line adds its record, if it has one. */
  lemma ProcessRecordsSnoc(lines: seq<string>, line: string)
    ensures ProcessRecords(lines + [line])
            == ProcessRecords(lines) + (if ParseProcessLine(line).Some? then [ParseProcessLine(line).value] else [])
  {
    ParsedLinesSnoc(lines, line);
    RecordsSnoc(ParsedLines(lines), ParseProcessLine(line));
  }

  /** The values of the parsed lines that are present, in order. */
  function Records(parsed: seq<Option<ProcessInfo>>): seq<ProcessInfo> {
    if parsed == [] then []
    else
      var rest := Records(parsed[..|parsed| - 1]);
      match parsed[|parsed| - 1]
      case Some(p) => rest + [p]
      case None => rest
  }

  /** The records of a run of data lines, in order. */
  function ProcessRecords(lines: seq<string>): seq<ProcessInfo> {
    Records(ParsedLines(lines))
  }

  /** There are never more records than parsed lines, every record is the value
      of one of them, and every present value is kept. */
  lemma {:induction false} RecordsAreThePresentValues(parsed: seq<Option<ProcessInfo>>)
    ensures |Records(parsed)| <= |parsed|
    ensures forall p :: p in Records(parsed) <==> Some(p) in parsed
  {
    if parsed != [] {
      var init := parsed[..|parsed| - 1];
      RecordsAreThePresentValues(init);
      assert parsed == init + [parsed[|parsed| - 1]];
    }
  }

  /** A record comes from a data line exactly when that line parses to it, and
      there are never more records than lines. */
  lemma ProcessRecordsFromLines(lines: seq<string>)
    ensures |ProcessRecords(lines)| <= |lines|
    ensures forall p :: p in ProcessRecords(lines) <==> exists l :: l in lines && ParseProcessLine(l) == Some(p)
  {
    var parsed := ParsedLines(lines);
    RecordsAreThePresentValues(parsed);
    forall p ensures Some(p) in parsed <==> exists l :: l in lines && ParseProcessLine(l) == Some(p) {
      if Some(p) in parsed {
        var i :| 0 <= i < |parsed| && parsed[i] == Some(p);
        ParsedLinesAt(lines, i);
        assert lines[i] in lines;
      }
      if exists l :: l in lines && ParseProcessLine(l) == Some(p) {
        var l :| l in lines && ParseProcessLine(l) == Some(p);
        var i :| 0 <= i < |lines| && lines[i] == l;
        ParsedLinesAt(lines, i);
        assert parsed[i] == Some(p);
      }
    }
  }

  /** The listing loop of `list_processes`: the first two lines are headers;
      every other line that parses becomes a record, in order. */
  method ParseProcessList(output: string) returns (processes: seq<ProcessInfo>)
    ensures var lines := Lines(output);
            processes == (if |lines| <= 2 then [] else ProcessRecords(lines[2..]))
    ensures |processes| == 0 || |processes| <= |Lines(output)| - 2
  {
    var lines := Lines(output);
    processes := [];
    if |lines| <= 2 {
      return;
    }
    var data := lines[2..];
    var i := 0;
    assert data[..0] == [];
    while i < |data|
      invariant i <= |data|
      invariant processes == ProcessRecords(data[..i])
    {
      var parsed := ParseProcessLine(data[i]);
      assert data[..i + 1] == data[..i] + [data[i]];
      ProcessRecordsSnoc(data[..i], data[i]);
      if parsed.Some? {
        processes := processes + [parsed.value];
      }
      i := i + 1;
    }
    assert data[..i] == data;
    ProcessRecordsFromLines(data);
  }

  // ---------------------------------------------------------------------
  // The `taskkill /F /IM <name>` outcome
  // ---------------------------------------------------------------------

  const SUCCESS: string := "SUCCESS"

  /** The number of lines that report a terminated process. */
  function SuccessLines(lines: seq<string>): (n: nat)
    ensures n <= |lines|
  {
    if lines == [] then 0
    else SuccessLines(lines[..|lines| - 1]) + (if Contains(lines[|lines| - 1], SUCCESS) then 1 else 0)
  }

  /** The count is the number of line positions that mention `SUCCESS`. */
  lemma {:induction false} SuccessLinesCountsPositions(lines: seq<string>)
    ensures SuccessLines(lines) == |set i | 0 <= i < |lines| && Contains(lines[i], SUCCESS)|
  {
    if lines != [] {
      var init := lines[..|lines| - 1];
      SuccessLinesCountsPositions(init);
      var before := set i | 0 <= i < |init| && Contains(init[i], SUCCESS);
      var all := set i | 0 <= i < |lines| && Contains(lines[i], SUCCESS);
      if Contains(lines[|lines| - 1], SUCCESS) {
        assert all == before + {|lines| - 1};
      } else {
        assert all == before;
      }
    }
  }

  /** `kill_processes_by_name` once `taskkill` has run: a failed run whose error
      text says "not found" killed nothing; any other failure is an error; a
      successful run killed one process per `SUCCESS` line, the count cast to u32. */
  function KillOutcome(name: string, succeeded: bool, stdout: string, stderr: string): (r: Result<nat>)
    ensures r.Ok? ==> r.value < U32_LIMIT
    ensures !succeeded ==> (r.Ok? <==> Contains(stderr, "not found"))
    ensures !succeeded && r.Ok? ==> r.value == 0
    ensures succeeded && |Lines(stdout)| < U32_LIMIT ==> r == Ok(SuccessLines(Lines(stdout)))
  {
    if !succeeded then
      if Contains(stderr, "not found") then Ok(0)
      else Err(RegistryError("Failed to kill processes " + name + ": " + stderr))
    else
      Ok(SuccessLines(Lines(stdout)) % U32_LIMIT)
  }
}
