/** What several components share. */
module Common {

  datatype Option<+T> = None | Some(value: T)

  /** The largest integer a JSON field of the protocol may hold. */
  const UINT_MAX: nat := 0x1F_FFFF_FFFF_FFFF

  predicate EndsWith(s: string, t: string) {
    |t| <= |s| && s[|s| - |t|..] == t
  }
}
