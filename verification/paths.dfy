/** The file system as the plugin sees it through `os.path`: what kind of
    thing a path names, and the string functions `join`, `dirname` and the
    stem `splitext(basename(p))[0]`, left uninterpreted. */
module Paths {

  /** `exists(p)` is false for `Missing`; `isfile(p)` is true only for
      `File`; anything else that exists is treated as a directory. */
  datatype PathKind = Missing | File | Dir

  datatype FileSystem = FileSystem(
    kindOf: string -> PathKind,
    join: (string, string) -> string,
    dirname: string -> string,
    stem: string -> string)

  /** `os.path.exists(p)`. */
  predicate Exists(fs: FileSystem, p: string) {
    fs.kindOf(p) != Missing
  }

  /** `os.path.isfile(p)`. */
  predicate IsFile(fs: FileSystem, p: string) {
    fs.kindOf(p) == File
  }
}
