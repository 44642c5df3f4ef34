/**
 * A snapshot of what the tool observes of the file system. Every operation of the
 * model reads this value instead of calling `os.path.exists`, `os.path.isdir`,
 * `os.path.isfile`, `os.makedirs` or the copy routine.
 */
module FileSystem {

  /** `existing`: paths for which `os.path.exists` holds; `dirs`: paths for which
      `os.path.isdir` holds; `files`: paths for which `os.path.isfile` holds;
      `failing`: destination paths for which the steps of a copy inside the caller's
      `try` raise (`copy_with_progress`, and for the backend copy also the creation
      of the parent folder and the removal of the old copy); `mkdirFailing`: folders
      for which `os.makedirs(path, exist_ok=True)` raises. */
  datatype Fs = Fs(existing: set<string>, dirs: set<string>, files: set<string>, failing: set<string>,
                   mkdirFailing: set<string>)

  /** How a routine that touches the file system ends: it returns a value, or an
      operation on folder `dir` raises an exception that the routine does not catch,
      which ends the program with status 1. */
  datatype Ending<T> = Returned(value: T) | Raised(dir: string)
}
