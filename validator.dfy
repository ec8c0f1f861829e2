/** The input checks of the startup manager (src/domain/validator.rs). The
    file system is seen only through which paths exist and which of them are
    directories. */
module Validator {
  import opened Shared
  import opened Text

  /** What the checks ask of the file system: `Path::exists` is membership in
      `paths`, `Path::is_dir` membership in `dirs`. */
  datatype FileSystem = FileSystem(paths: set<string>, dirs: set<string>)

  const EMPTY_NAME_REASON: string := "Entry name cannot be empty"

  /** `validate_path`: the path must exist; the error carries the path as given. */
  function ValidatePath(fs: FileSystem, path: string): (r: Result<()>)
    ensures r.Ok? <==> path in fs.paths
    ensures r.Err? ==> r.error == PathNotFound(path)
  {
    if path !in fs.paths then Err(PathNotFound(path)) else Ok(())
  }

  /** `validate_directory`: existence is checked before directory-ness. */
  function ValidateDirectory(fs: FileSystem, dir: string): (r: Result<()>)
    ensures r.Ok? <==> dir in fs.paths && dir in fs.dirs
    ensures dir !in fs.paths ==> r == Err(DirectoryNotFound(dir))
    ensures dir in fs.paths && dir !in fs.dirs ==> r == Err(NotADirectory(dir))
  {
    if dir !in fs.paths then Err(DirectoryNotFound(dir))
    else if dir !in fs.dirs then Err(NotADirectory(dir))
    else Ok(())
  }

  /** `validate_name`: a name that trims to nothing is refused. The test is
      written as "every character is whitespace", which is the same thing
      (`ValidateNameRefusesBlank`). */
  function ValidateName(name: string): (r: Result<()>)
    ensures r.Err? ==> r.error == InvalidName(EMPTY_NAME_REASON)
  {
    if AllWhitespace(name) then Err(InvalidName(EMPTY_NAME_REASON)) else Ok(())
  }

  /** A name is refused exactly when it trims to the empty string, that is
      when every character of it is whitespace (the empty name included), and
      accepted as soon as one character is not whitespace. */
  lemma ValidateNameRefusesBlank(name: string)
    ensures ValidateName(name).Err? <==> Trim(name) == []
    ensures ValidateName(name).Err? <==> AllWhitespace(name)
    ensures forall i :: 0 <= i < |name| && !IsWhitespace(name[i]) ==> ValidateName(name) == Ok(())
  {
    TrimEmptyIff(name);
  }

  /** A directory that passes `validate_directory` also passes `validate_path`,
      and a path refused by `validate_path` is refused by `validate_directory`
      for the same reason, not found. */
  lemma DirectoryCheckImpliesPathCheck(fs: FileSystem, dir: string)
    ensures ValidateDirectory(fs, dir).Ok? ==> ValidatePath(fs, dir).Ok?
    ensures ValidatePath(fs, dir).Err? ==> ValidateDirectory(fs, dir) == Err(DirectoryNotFound(dir))
  {
  }
}
