/**
 * String helpers the tester relies on through Python built-ins: the
 * substring test `needle in hay` and the decimal rendering of an `int`
 * inside an f-string, together with the parsers that invert that rendering.
 */
module Text {
  import opened Wrappers

  /** `p` is a prefix of `s`. */
  predicate IsPrefix(p: string, s: string) {
    |p| <= |s| && s[..|p|] == p
  }

  /** Specification of `needle in hay`: `needle` starts at some position of `hay`. */
  ghost predicate Occurs(needle: string, hay: string) {
    exists i :: 0 <= i <= |hay| && IsPrefix(needle, hay[i..])
  }

  lemma OccursInTail(needle: string, hay: string)
    requires hay != [] && !IsPrefix(needle, hay)
    ensures Occurs(needle, hay) <==> Occurs(needle, hay[1..])
  {
    if Occurs(needle, hay) {
      var i :| 0 <= i <= |hay| && IsPrefix(needle, hay[i..]);
      assert hay[0..] == hay;
      assert hay[1..][i - 1..] == hay[i..];
    }
    if Occurs(needle, hay[1..]) {
      var i :| 0 <= i <= |hay[1..]| && IsPrefix(needle, hay[1..][i..]);
      assert hay[1..][i..] == hay[i + 1..];
    }
  }

  /** Python's `needle in hay`, by trying every start position from the left. */
  function Contains(hay: string, needle: string): (b: bool)
    ensures b <==> Occurs(needle, hay)
    decreases |hay|
  {
    if IsPrefix(needle, hay) then
      assert hay[0..] == hay;
      true
    else if hay == [] then
      assert hay[0..] == hay;
      false
    else
      OccursInTail(needle, hay);
      Contains(hay[1..], needle)
  }

  /** An occurrence inside a piece of a string is an occurrence in the whole string. */
  lemma OccursInContext(needle: string, mid: string, pre: string, post: string)
    requires Occurs(needle, mid)
    ensures Occurs(needle, pre + mid + post)
  {
    var i :| 0 <= i <= |mid| && IsPrefix(needle, mid[i..]);
    var s := pre + mid + post;
    assert s[|pre| + i..][..|needle|] == mid[i..][..|needle|];
  }

  // Decimal numerals

  predicate IsDigit(c: char) {
    '0' <= c <= '9'
  }

  predicate AllDigits(s: string) {
    forall k | 0 <= k < |s| :: IsDigit(s[k])
  }

  function DigitChar(d: nat): (c: char)
    requires d < 10
  {
    ('0' as int + d) as char
  }

  function DigitValue(c: char): nat
    requires IsDigit(c)
  {
    c as int - '0' as int
  }

  /** `str(n)` for a non-negative `n`: its decimal numeral, without leading zeros. */
  function NatToString(n: nat): (s: string)
    ensures s != [] && AllDigits(s)
    ensures |s| > 1 ==> s[0] != '0'
    decreases n
  {
    if n < 10 then [DigitChar(n)] else NatToString(n / 10) + [DigitChar(n % 10)]
  }

  /** The number a non-empty run of digits denotes, most significant digit first. */
  function DigitsValue(s: string): nat
    requires AllDigits(s)
  {
    if s == [] then 0 else 10 * DigitsValue(s[..|s| - 1]) + DigitValue(s[|s| - 1])
  }

  /** Reads a decimal numeral; anything that is not a non-empty run of digits is refused. */
  function ParseNat(s: string): Option<nat> {
    if s != [] && AllDigits(s) then Some(DigitsValue(s)) else None
  }

  /** `str(i)` for any `int`: a minus sign before the numeral of `-i` when `i` is negative. */
  function IntToString(i: int): (s: string)
    ensures s != [] && (s[0] == '-' || IsDigit(s[0]))
    ensures forall k | 0 < k < |s| :: IsDigit(s[k])
  {
    if i < 0 then "-" + NatToString(-i) else NatToString(i)
  }

  /** Reads an optionally negative decimal numeral. */
  function ParseInt(s: string): Option<int> {
    if s != [] && s[0] == '-' then
      match ParseNat(s[1..])
      case Some(n) => Some(0 - n as int)
      case None => None
    else
      match ParseNat(s)
      case Some(n) => Some(n)
      case None => None
  }

  lemma {:induction false} ParseNatToString(n: nat)
    ensures ParseNat(NatToString(n)) == Some(n)
  {
    if n >= 10 {
      ParseNatToString(n / 10);
      var s := NatToString(n);
      assert s[..|s| - 1] == NatToString(n / 10);
      assert DigitValue(s[|s| - 1]) == n % 10;
      assert DigitsValue(s) == 10 * (n / 10) + n % 10;
    } else {
      assert DigitValue(NatToString(n)[0]) == n;
    }
  }

  /** Reading back what `str(i)` wrote gives `i`. */
  lemma ParseIntToString(i: int)
    ensures ParseInt(IntToString(i)) == Some(i)
  {
    if i < 0 {
      ParseNatToString(-i);
      assert IntToString(i)[1..] == NatToString(-i);
    } else {
      ParseNatToString(i);
    }
  }

  /** The first position of `c` in `s`, if any. */
  function IndexOf(s: string, c: char): (r: Option<nat>)
    ensures r.Some? ==> r.value < |s| && s[r.value] == c && forall j | 0 <= j < r.value :: s[j] != c
    ensures r.None? ==> forall j | 0 <= j < |s| :: s[j] != c
  {
    if s == [] then None
    else if s[0] == c then Some(0)
    else
      match IndexOf(s[1..], c)
      case Some(k) => Some(k + 1)
      case None => None
  }
}
