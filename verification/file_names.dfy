// Names in directories, and the paths they make.
module FileNames {
  import opened CStrings

  predicate IsDot(name: string) {
    name == "." || name == ".."
  }

  /** Not empty, no slash and no NUL. */
  predicate IsName(name: string) {
    name != "" && NoNul(name) && forall i | 0 <= i < |name| :: name[i] != '/'
  }

  /** The directory part under which names are put: a slash at the end is not doubled. */
  function DirText(path: string): string {
    if path != "" && path[|path| - 1] == '/' then path else path + "/"
  }
}
