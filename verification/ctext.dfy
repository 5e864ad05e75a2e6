/** Text as the C code sees it: NUL-terminated byte strings. */
module CText {

  /** One byte of a C string, read as the character with that code. A C string
      cannot hold the byte 0 (it terminates the string), so 0 is excluded. */
  type CChar = c: char | 0 < c as int < 256 witness 'a'

  /** The bytes of a C string before its terminating NUL. */
  type CString = seq<CChar>

  /** The first `n` bytes of `s` (all of `s` when it is shorter): what a copy
      into a fixed buffer with room for `n` bytes keeps. */
  function Truncate(s: CString, n: nat): CString
  {
    if |s| <= n then s else s[..n]
  }
}
