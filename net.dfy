/** Addresses, prefixes and the little string handling the core needs. */
module Net {

  datatype Family = V4 | V6

  /** An address of Python's `ipaddress`: its version and its integer value. */
  datatype Ip = Ip(family: Family, value: nat)

  /** A network of Python's `ipaddress`: version, network address and prefix length. */
  datatype Prefix = Prefix(family: Family, network: nat, length: nat)

  function Width(f: Family): nat {
    if f == V4 then 32 else 128
  }

  function Pow2(n: nat): (r: nat)
    ensures r >= 1
  {
    if n == 0 then 1 else 2 * Pow2(n - 1)
  }

  /** `ip in prefix`: false across versions, otherwise the leading `length` bits agree. */
  predicate Contains(p: Prefix, ip: Ip) {
    && p.family == ip.family
    && p.length <= Width(p.family)
    && ip.value / Pow2(Width(p.family) - p.length) == p.network / Pow2(Width(p.family) - p.length)
  }

  function LowerChar(c: char): char {
    if 'A' <= c <= 'Z' then (c as int + 32) as char else c
  }

  /** `str.lower()` on the ASCII letters. */
  function Lower(s: string): string {
    seq(|s|, i requires 0 <= i < |s| => LowerChar(s[i]))
  }

  /**
   * Python's `str.isspace` on one character, which `str.strip()` removes: the ASCII blanks,
   * the separators U+001C to U+001F, and the Unicode spaces and line separators.
   */
  predicate IsSpace(c: char) {
    || c == ' ' || '\t' <= c <= '\r' || '\U{1C}' <= c <= '\U{1F}'
    || c == '\U{85}' || c == '\U{A0}' || c == '\U{1680}' || '\U{2000}' <= c <= '\U{200A}'
    || c == '\U{2028}' || c == '\U{2029}' || c == '\U{202F}' || c == '\U{205F}' || c == '\U{3000}'
  }

  /** `not s.strip()`: the string is empty or only white space. */
  predicate IsBlank(s: string) {
    forall i :: 0 <= i < |s| ==> IsSpace(s[i])
  }
}
