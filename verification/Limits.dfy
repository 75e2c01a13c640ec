/** Sizes the C sources take from <limits.h> and <stdint.h>. */
module Limits {
  const PATH_MAX := 4096
  const NAME_MAX := 255
  const INT_MAX := 0x7FFF_FFFF
  const TWO_64: int := 0x1_0000_0000_0000_0000

  /** uint64_t: arithmetic on it wraps, which every use below writes out. */
  type u64 = x: int | 0 <= x < TWO_64

  /** What snprintf(buffer, size, "%s", s) leaves in the buffer. */
  function Fitted(s: string, size: nat): (r: string)
    requires size > 0
    ensures |r| < size
  {
    if |s| < size then s else s[..size - 1]
  }

  /** The buffer holds s as a C string. */
  ghost predicate Holds(buffer: seq<char>, s: string) {
    '\0' !in s && |s| < |buffer| && buffer[..|s|] == s && buffer[|s|] == '\0'
  }
}
