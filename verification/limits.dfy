// Limits and error numbers of the system.
module Limits {
  const PATH_MAX: nat := 4096
  const SYMLOOP_MAX: nat := 40

  const ENOENT := 2
  const EACCES := 13
  const EINVAL := 22
  const ENAMETOOLONG := 36
  const ELOOP := 40
}
