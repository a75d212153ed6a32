/** Characters and strings as the Rust sources see them: Unicode scalars, with
    the UTF-8 width of each, and the two notions of white space in use. */
module Text {

  /** Bytes a scalar takes in UTF-8. */
  function Width(c: char): (w: nat)
    ensures 1 <= w <= 4
  {
    if c as int < 0x80 then 1
    else if c as int < 0x800 then 2
    else if c as int < 0x10000 then 3
    else 4
  }

  function Pow2(n: nat): nat { if n == 0 then 1 else 2 * Pow2(n - 1) }

  /** The scalars that `w` bytes of UTF-8 can carry (section 3 of RFC 3629): seven
      payload bits in one byte, otherwise `7 - w` in the first and six in each other. */
  function Capacity(w: nat): nat
    requires 1 <= w <= 4
  {
    if w == 1 then Pow2(7) else Pow2((7 - w) + 6 * (w - 1))
  }

  lemma Capacities()
    ensures Capacity(1) == 0x80 && Capacity(2) == 0x800 && Capacity(3) == 0x10000 && Capacity(4) == 0x20_0000
  {
    assert Pow2(7) == 2 * Pow2(6) == 4 * Pow2(5) == 8 * Pow2(4) == 16 * Pow2(3) == 32 * Pow2(2) == 64 * Pow2(1);
    assert Pow2(11) == 2 * Pow2(10) == 4 * Pow2(9) == 8 * Pow2(8) == 16 * Pow2(7);
    assert Pow2(16) == 2 * Pow2(15) == 4 * Pow2(14) == 8 * Pow2(13) == 16 * Pow2(12) == 32 * Pow2(11);
    assert Pow2(21) == 2 * Pow2(20) == 4 * Pow2(19) == 8 * Pow2(18) == 16 * Pow2(17) == 32 * Pow2(16);
  }

  /** A scalar takes the fewest bytes that can carry it. */
  lemma WidthIsLeast(c: char)
    ensures c as int < Capacity(Width(c))
    ensures Width(c) > 1 ==> Capacity(Width(c) - 1) <= c as int
  {
    hide Capacity;
    Capacities();
  }

  /** `str::len`: the length of a string in bytes. */
  function Bytes(s: string): (n: nat)
    ensures |s| <= n
  {
    if s == "" then 0 else Width(s[0]) + Bytes(s[1..])
  }

  lemma {:induction false} BytesConcat(s: string, t: string)
    ensures Bytes(s + t) == Bytes(s) + Bytes(t)
  {
    if s == "" {
      assert s + t == t;
    } else {
      assert (s + t)[1..] == s[1..] + t;
      BytesConcat(s[1..], t);
    }
  }

  /** `u8::is_ascii_whitespace` (vertical tab is not included). */
  predicate IsAsciiWhitespace(c: char) {
    c == '\t' || c == '\n' || c as int == 0x0C || c == '\r' || c == ' '
  }

  /** The Unicode `White_Space` property: `\s` of the regex crate and `char::is_whitespace`. */
  predicate IsWhitespace(c: char) {
    var n := c as int;
    || 0x09 <= n <= 0x0D || n == 0x20 || n == 0x85 || n == 0xA0 || n == 0x1680
    || 0x2000 <= n <= 0x200A || n == 0x2028 || n == 0x2029 || n == 0x202F
    || n == 0x205F || n == 0x3000
  }

  /** Nothing but white space: `trim().is_empty()`. */
  predicate IsBlank(s: string) { forall i :: 0 <= i < |s| ==> IsWhitespace(s[i]) }

  predicate IsAsciiAlpha(c: char) {
    'a' <= c <= 'z' || 'A' <= c <= 'Z'
  }

  /** `to_ascii_lowercase`. */
  function Lower(c: char): (r: char) {
    if 'A' <= c <= 'Z' then (c as int + 32) as char else c
  }

  /** `eq_ignore_ascii_case`. */
  predicate EqIgnoreCase(s: string, t: string) {
    |s| == |t| && forall i :: 0 <= i < |s| ==> Lower(s[i]) == Lower(t[i])
  }

  /** `str::trim_end`. */
  function TrimEnd(s: string): (r: string)
    ensures r <= s
    ensures r == "" || !IsWhitespace(r[|r| - 1])
    ensures forall i :: |r| <= i < |s| ==> IsWhitespace(s[i])
  {
    if s != "" && IsWhitespace(s[|s| - 1]) then TrimEnd(s[..|s| - 1]) else s
  }

  /** `str::trim_start`. */
  function TrimStart(s: string): (r: string)
    ensures |r| <= |s| && r == s[|s| - |r|..]
    ensures r == "" || !IsWhitespace(r[0])
    ensures forall i :: 0 <= i < |s| - |r| ==> IsWhitespace(s[i])
  {
    if s != "" && IsWhitespace(s[0]) then TrimStart(s[1..]) else s
  }

  predicate EndsInSpace(s: string) { s != "" && IsWhitespace(s[|s| - 1]) }
}
