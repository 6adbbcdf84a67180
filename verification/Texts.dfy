/** Letter case and file names, over ASCII. */
module Texts {

  function LowerChar(c: char): char {
    if 'A' <= c <= 'Z' then (c as int + 32) as char else c
  }

  function Lower(s: string): string {
    seq(|s|, i requires 0 <= i < |s| => LowerChar(s[i]))
  }

  function Upper(s: string): string {
    seq(|s|, i requires 0 <= i < |s| => if 'a' <= s[i] <= 'z' then (s[i] as int - 32) as char else s[i])
  }

  /** Characters that may stand in a href; the others become dashes. */
  function SafeChar(c: char): char {
    if 'a' <= c <= 'z' || 'A' <= c <= 'Z' || '0' <= c <= '9' || c == '-' || c == '_' || c == '.' then c else '-'
  }

  function SafeName(s: string, default: string): string {
    if s == "" then default else seq(|s|, i requires 0 <= i < |s| => SafeChar(s[i]))
  }
}
