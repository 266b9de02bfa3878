/** `_file_check` and the readers built on it, identical in both
    generations' interface utilities. Whether the path is a file and what
    the loader produced come in as values; opening and parsing the file are
    left out. */
module Files {
  import opened Wrappers
  import opened Errors
  import Text

  function NotFoundMsg(file: string): string {
    "Error: input file " + file + " not found"
  }

  function EmptyMsg(file: string): string {
    "Error: empty input file, " + file
  }

  /** `_file_check(file, loader)`: a missing file is DCNMFileError, a
      loader exception propagates, and contents the loader found falsy
      (`truthy` says which) are DCNMFileError too. */
  function FileCheck<T>(file: string, isFile: bool, loaded: Result<T, Error>, truthy: T -> bool): (r: Result<T, Error>)
    ensures !isFile ==> r == Err(FileError(NotFoundMsg(file)))
    ensures isFile && loaded.Err? ==> r == loaded
    ensures isFile && loaded.Ok? ==> r == if truthy(loaded.value) then loaded else Err(FileError(EmptyMsg(file)))
    ensures r.Ok? ==> r == loaded && truthy(r.value)
  {
    if !isFile then Err(FileError(NotFoundMsg(file)))
    else
      var contents :- loaded;
      if truthy(contents) then Ok(contents) else Err(FileError(EmptyMsg(file)))
  }

  /** `_file_check(file, skip_load=True)`: only the existence test. */
  function FileExists(file: string, isFile: bool): (r: Result<bool, Error>)
    ensures r.Ok? <==> isFile
    ensures r.Ok? ==> r.value
    ensures r.Err? ==> r.error == FileError(NotFoundMsg(file))
  {
    if isFile then Ok(true) else Err(FileError(NotFoundMsg(file)))
  }

  /** `_read_serials_from_file`: the file's lines (already stripped), an
      empty file being an error. */
  function ReadSerials(file: string, isFile: bool, lines: Result<seq<string>, Error>): (r: Result<seq<string>, Error>)
    ensures r.Ok? ==> isFile && lines == r && |r.value| > 0
    ensures isFile && lines.Ok? && lines.value == [] ==> r == Err(FileError(EmptyMsg(file)))
    ensures !isFile ==> r == Err(FileError(NotFoundMsg(file)))
  {
    FileCheck(file, isFile, lines, (s: seq<string>) => |s| > 0)
  }
}
