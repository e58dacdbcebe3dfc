/** Optional values and results carrying the source's error messages. */
module Wrappers {
  datatype Option<+T> = None | Some(value: T)
  datatype Result<+T, +E> = Success(value: T) | Failure(error: E)

  /** `a or b` on strings. */
  function Or(a: string, b: string): string {
    if a != "" then a else b
  }

  /** `c.isspace()`, by code point. */
  predicate Space(c: char) {
    var n := c as int;
    || 0x9 <= n <= 0xD || 0x1C <= n <= 0x20 || n == 0x85 || n == 0xA0 || n == 0x1680
    || 0x2000 <= n <= 0x200A || n == 0x2028 || n == 0x2029 || n == 0x202F || n == 0x205F || n == 0x3000
  }

  /** Among the ASCII characters: tab to carriage return, the four separators, and the blank. */
  lemma AsciiSpaces(c: char)
    requires c as int < 128
    ensures Space(c) <==> c in " \t\n\r" || c as int in {0x0B, 0x0C, 0x1C, 0x1D, 0x1E, 0x1F}
  {
  }

  /** `not s.strip()`. */
  predicate Blank(s: string) {
    forall c :: c in s ==> Space(c)
  }

  /** A present, nonempty string: what Python treats as true. */
  predicate Truthy(s: Option<string>) {
    s.Some? && s.value != ""
  }
}
