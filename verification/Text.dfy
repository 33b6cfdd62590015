/** Substrings. */
module Text {

  predicate Occurs(s: string, i: int, sub: string) {
    0 <= i && i + |sub| <= |s| && s[i..i + |sub|] == sub
  }
}
