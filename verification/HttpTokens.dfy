/** Tokens, readable field values and letter case, as section 5 of RFC 9110 has them. */
module HttpTokens {
  predicate IsAlphanumeric(c: char) {
    'a' <= c <= 'z' || 'A' <= c <= 'Z' || '0' <= c <= '9'
  }

  predicate IsTokenChar(c: char) {
    IsAlphanumeric(c) || c in "!#$%&'*+-.^_`|~"
  }

  /** Token characters are the visible ASCII characters that are no delimiters. */
  lemma TokenCharsAreNoDelimiters(c: char)
    ensures IsTokenChar(c) <==> 33 <= c as int <= 126 && c !in "\"(),/:;<=>?@[\\]{}"
  {
  }

  predicate IsToken(s: string) {
    s != [] && forall i :: 0 <= i < |s| ==> IsTokenChar(s[i])
  }

  /** The value can be read as a string: visible ASCII characters, spaces and tabs. */
  predicate Readable(value: string) {
    forall i :: 0 <= i < |value| ==> 32 <= value[i] as int < 127 || value[i] == '\t'
  }

  function LowerChar(c: char): char {
    if 'A' <= c <= 'Z' then (c as int + 32) as char else c
  }

  function Lower(s: string): string {
    seq(|s|, i requires 0 <= i < |s| => LowerChar(s[i]))
  }
}
