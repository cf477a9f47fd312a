/** The characters and the prefix test shared by the text parsers. */
module Bytes {
  import opened Machine

  const NUL: byte := 0
  const TAB: byte := 9
  const NL: byte := 10
  const CR: byte := 13
  const SPACE: byte := 32
  const HASH: byte := 35
  const MINUS: byte := 45
  const DOT: byte := 46
  const ZERO: byte := 48
  const EQUALS: byte := 61

  predicate StartsWith(s: seq<byte>, prefix: seq<byte>) { |prefix| <= |s| && s[..|prefix|] == prefix }
}
