/** `KillProcessUseCase` (src/application/kill_process.rs): check the name, find
    the entry, work out which executable it starts, kill every process of that
    executable. The repository's listing is given as its result, and
    `kill_processes_by_name` as a function from an executable name to the count
    it reports or its error. */
module KillProcess {
  import opened Shared
  import opened Text
  import opened Models
  import opened Validator
  import opened Process

  /** `kill_processes_by_name`, as seen by the use case. */
  type Killer = string -> Result<nat>

  /** The position of the first entry whose name is exactly `name`, or the
      length of the list when there is none (`iter().find`). */
  function FirstNamed(entries: seq<StartupEntry>, name: string): (k: nat)
    ensures k <= |entries|
    ensures k < |entries| ==> entries[k].name == name
    ensures forall j :: 0 <= j < k ==> entries[j].name != name
  {
    if entries == [] then 0
    else if entries[0].name == name then 0
    else 1 + FirstNamed(entries[1..], name)
  }

  function NotFoundMessage(name: string): string {
    "Entry '" + name + "' not found in startup registry"
  }

  function UnresolvedMessage(command: string): string {
    "Could not determine executable name from command: " + command
  }

  /** Everything `execute` does before the kill: the executable to kill, or
      the error that stops it first. */
  function KillTarget(name: string, listed: Result<seq<StartupEntry>>): (t: Result<string>)
    ensures Trim(name) == [] ==> t == Err(InvalidName(EMPTY_NAME_REASON))
    ensures t.Ok? ==> Trim(name) != [] && listed.Ok?
    ensures t.Ok? ==> exists k :: 0 <= k < |listed.value| && listed.value[k].name == name
                                  && (forall j :: 0 <= j < k ==> listed.value[j].name != name)
                                  && ExtractExecutableName(listed.value[k].command) == Some(t.value)
  {
    ValidateNameRefusesBlank(name);
    match ValidateName(name)
    case Err(e) => Err(e)
    case Ok(_) =>
      match listed
      case Err(e) => Err(e)
      case Ok(entries) =>
        var k := FirstNamed(entries, name);
        if k == |entries| then Err(RegistryError(NotFoundMessage(name)))
        else
          match ExtractExecutableName(entries[k].command)
          case None => Err(RegistryError(UnresolvedMessage(entries[k].command)))
          case Some(exe) => Ok(exe)
  }

  /** `KillProcessUseCase::execute`. */
  function KillProcess(name: string, listed: Result<seq<StartupEntry>>, kill: Killer): (r: Result<nat>)
    ensures Trim(name) == [] ==> r == Err(InvalidName(EMPTY_NAME_REASON))
    ensures r.Ok? ==> listed.Ok? && exists k :: 0 <= k < |listed.value| && listed.value[k].name == name
                                               && (forall j :: 0 <= j < k ==> listed.value[j].name != name)
                                               && ExtractExecutableName(listed.value[k].command).Some?
                                               && r == kill(ExtractExecutableName(listed.value[k].command).value)
  {
    match KillTarget(name, listed)
    case Err(e) => Err(e)
    case Ok(exe) => kill(exe)
  }

  // ---------------------------------------------------------------------
  // What `execute` promises
  // ---------------------------------------------------------------------

  /** A blank name is refused whatever the repository holds and whatever the
      kill would do: the listing is not consulted and nothing is killed. */
  lemma BlankNameRefused(name: string, listed: Result<seq<StartupEntry>>, kill: Killer)
    requires Trim(name) == []
    ensures KillProcess(name, listed, kill) == Err(InvalidName(EMPTY_NAME_REASON))
  {
    ValidateNameRefusesBlank(name);
  }

  /** A failing listing is passed on unchanged for a valid name. */
  lemma ListingErrorPropagates(name: string, e: StartupError, kill: Killer)
    requires Trim(name) != []
    ensures KillProcess(name, Err(e), kill) == Err(e)
  {
    ValidateNameRefusesBlank(name);
  }

  /** No entry has the name: a registry error naming it, not `EntryNotFound`,
      and no kill. */
  lemma MissingEntryIsRegistryError(name: string, entries: seq<StartupEntry>, kill: Killer)
    requires Trim(name) != []
    requires forall i :: 0 <= i < |entries| ==> entries[i].name != name
    ensures KillProcess(name, Ok(entries), kill) == Err(RegistryError(NotFoundMessage(name)))
  {
    ValidateNameRefusesBlank(name);
  }

  /** The entry acted on is the first one with exactly that name: later
      entries with the same name, and entries after it, change nothing. */
  lemma FirstMatchDecides(name: string, before: seq<StartupEntry>, e: StartupEntry,
                          after: seq<StartupEntry>, kill: Killer)
    requires Trim(name) != [] && e.name == name
    requires forall i :: 0 <= i < |before| ==> before[i].name != name
    ensures KillProcess(name, Ok(before + [e] + after), kill)
            == match ExtractExecutableName(e.command)
               case None => Err(RegistryError(UnresolvedMessage(e.command)))
               case Some(exe) => kill(exe)
  {
    ValidateNameRefusesBlank(name);
    var entries := before + [e] + after;
    FirstNamedAt(entries, name, |before|);
  }

  /** The first entry with the name, found by its position. */
  lemma {:induction false} FirstNamedAt(entries: seq<StartupEntry>, name: string, k: nat)
    requires k < |entries| && entries[k].name == name
    requires forall j :: 0 <= j < k ==> entries[j].name != name
    ensures FirstNamed(entries, name) == k
  {
    if k > 0 {
      assert entries[0].name != name;
      FirstNamedAt(entries[1..], name, k - 1);
    }
  }

  /** When the entry's value names no executable, the error quotes the value
      and the outcome does not depend on the kill at all. */
  lemma UnresolvedIsNotKilled(name: string, entries: seq<StartupEntry>, kill1: Killer, kill2: Killer)
    requires FirstNamed(entries, name) < |entries|
    requires ExtractExecutableName(entries[FirstNamed(entries, name)].command).None?
    ensures KillProcess(name, Ok(entries), kill1) == KillProcess(name, Ok(entries), kill2)
    ensures Trim(name) != [] ==>
              KillProcess(name, Ok(entries), kill1)
              == Err(RegistryError(UnresolvedMessage(entries[FirstNamed(entries, name)].command)))
  {
    ValidateNameRefusesBlank(name);
  }

  /** Otherwise the answer is the kill's own, count or error, for the
      executable the entry's value resolves to. */
  lemma ResolvedIsKilled(name: string, entries: seq<StartupEntry>, kill: Killer)
    requires Trim(name) != [] && FirstNamed(entries, name) < |entries|
    requires ExtractExecutableName(entries[FirstNamed(entries, name)].command).Some?
    ensures KillProcess(name, Ok(entries), kill)
            == kill(ExtractExecutableName(entries[FirstNamed(entries, name)].command).value)
  {
    ValidateNameRefusesBlank(name);
  }

  /** Anything the kill is asked to stop ends in `.exe`. */
  lemma TargetEndsInExe(name: string, listed: Result<seq<StartupEntry>>)
    ensures KillTarget(name, listed).Ok? ==> EndsWith(KillTarget(name, listed).value, EXE)
  {
  }
}
