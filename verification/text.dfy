/**
 * The handful of Python string operations the client relies on: `str.startswith`,
 * `str.find` of one character, `str.strip()` with no argument, and `str(n)` for a
 * non-negative integer together with its inverse on digit strings.
 */
module Text {

  /** `s.startswith(prefix)`: `s` is at least as long and agrees with `prefix` on its length. */
  predicate StartsWith(s: string, prefix: string)
    ensures StartsWith(s, prefix) <==>
      |prefix| <= |s| && forall i :: 0 <= i < |prefix| ==> s[i] == prefix[i]
  {
    |prefix| <= |s| && s[..|prefix|] == prefix
  }

  /** `s.find(c)`: the index of the first occurrence of `c`, or -1 when there is none. */
  function Find(s: string, c: char): (r: int)
    ensures -1 <= r < |s|
    ensures r == -1 <==> c !in s
    ensures 0 <= r ==> s[r] == c && c !in s[..r]
  {
    if s == [] then -1
    else if s[0] == c then 0
    else
      var k := Find(s[1..], c);
      if k == -1 then -1
      else
        assert s[..k + 1] == [s[0]] + s[1..][..k];
        k + 1
  }

  /**
   * Python's `str.isspace` for one character: the ASCII whitespace and separators
   * U+0009..U+000D, U+001C..U+001F, U+0020, and the Unicode spaces and line
   * separators U+0085, U+00A0, U+1680, U+2000..U+200A, U+2028, U+2029, U+202F,
   * U+205F and U+3000.
   */
  predicate IsSpace(c: char) {
    var n := c as int;
    (0x09 <= n <= 0x0D) || (0x1C <= n <= 0x20) || n == 0x85 || n == 0xA0 || n == 0x1680
    || (0x2000 <= n <= 0x200A) || n == 0x2028 || n == 0x2029 || n == 0x202F
    || n == 0x205F || n == 0x3000
  }

  /** `s.lstrip()`: drops the leading whitespace. */
  function TrimStart(s: string): (r: string)
    ensures |r| <= |s| && r == s[|s| - |r|..]
    ensures r == [] || !IsSpace(r[0])
    ensures forall i :: 0 <= i < |s| - |r| ==> IsSpace(s[i])
  {
    if s != [] && IsSpace(s[0]) then TrimStart(s[1..]) else s
  }

  /** `s.rstrip()`: drops the trailing whitespace. */
  function TrimEnd(s: string): (r: string)
    ensures |r| <= |s| && r == s[..|r|]
    ensures r == [] || !IsSpace(r[|r| - 1])
    ensures forall i :: |r| <= i < |s| ==> IsSpace(s[i])
  {
    if s != [] && IsSpace(s[|s| - 1]) then TrimEnd(s[..|s| - 1]) else s
  }

  /**
   * `s.strip()`. The result has no whitespace at either end, only characters of `s`,
   * and when `s` does not start with whitespace it is `s` with its trailing
   * whitespace removed.
   */
  function Strip(s: string): (r: string)
    ensures r == [] || (!IsSpace(r[0]) && !IsSpace(r[|r| - 1]))
    ensures forall c :: c in r ==> c in s
    ensures s != [] && !IsSpace(s[0]) ==>
      |r| <= |s| && r == s[..|r|] && forall i :: |r| <= i < |s| ==> IsSpace(s[i])
    ensures (forall i :: 0 <= i < |s| ==> !IsSpace(s[i])) ==> r == s
  {
    var t := TrimStart(s);
    var r := TrimEnd(t);
    assert forall c :: c in r ==> c in s by {
      forall c | c in r ensures c in s {
        var i :| 0 <= i < |r| && r[i] == c;
        assert t[i] == c && s[|s| - |t| + i] == c;
      }
    }
    assert s != [] && !IsSpace(s[0]) ==> t == s;
    r
  }

  /** Stripping a word followed by whitespace gives back the word. */
  lemma StripTrailingSpaces(word: string, spaces: string)
    requires word != [] && !IsSpace(word[0]) && !IsSpace(word[|word| - 1])
    requires forall i :: 0 <= i < |spaces| ==> IsSpace(spaces[i])
    ensures Strip(word + spaces) == word
  {
    var s := word + spaces;
    assert TrimStart(s) == s;
    TrimEndSpaces(word, spaces);
  }

  lemma {:induction false} TrimEndSpaces(word: string, spaces: string)
    requires word != [] && !IsSpace(word[|word| - 1])
    requires forall i :: 0 <= i < |spaces| ==> IsSpace(spaces[i])
    ensures TrimEnd(word + spaces) == word
    decreases |spaces|
  {
    var s := word + spaces;
    if spaces == [] {
      assert s == word;
    } else {
      var shorter := spaces[..|spaces| - 1];
      assert IsSpace(s[|s| - 1]);
      assert s[..|s| - 1] == word + shorter;
      TrimEndSpaces(word, shorter);
    }
  }

  predicate IsDigit(c: char) {
    '0' <= c <= '9'
  }

  predicate AllDigits(s: string) {
    forall i :: 0 <= i < |s| ==> IsDigit(s[i])
  }

  function DigitChar(d: nat): (c: char)
    requires d < 10
    ensures IsDigit(c) && c as int - '0' as int == d
  {
    ('0' as int + d) as char
  }

  /** `str(n)` for `n >= 0`: decimal digits, most significant first, no leading zero. */
  function Decimal(n: nat): (r: string)
    ensures r != [] && AllDigits(r)
    ensures r[0] == '0' ==> n == 0 && r == "0"
    ensures n < 10 <==> |r| == 1
  {
    if n < 10 then [DigitChar(n)] else Decimal(n / 10) + [DigitChar(n % 10)]
  }

  /** The value of a string of decimal digits (the empty string has value 0). */
  function DigitsValue(s: string): nat
    requires AllDigits(s)
  {
    if s == [] then 0
    else DigitsValue(s[..|s| - 1]) * 10 + (s[|s| - 1] as int - '0' as int)
  }

  /** Reading back the digits of `str(n)` gives `n`. */
  lemma {:induction false} DigitsValueOfDecimal(n: nat)
    ensures DigitsValue(Decimal(n)) == n
  {
    if n >= 10 {
      var d := Decimal(n);
      assert d[..|d| - 1] == Decimal(n / 10);
      DigitsValueOfDecimal(n / 10);
    }
  }

  /** Different numbers have different decimal representations. */
  lemma DecimalInjective(a: nat, b: nat)
    ensures Decimal(a) == Decimal(b) <==> a == b
  {
    if Decimal(a) == Decimal(b) {
      DigitsValueOfDecimal(a);
      DigitsValueOfDecimal(b);
    }
  }

  /** Decimal digits are neither whitespace nor an opening bracket. */
  lemma DigitsAreSolid(s: string)
    requires AllDigits(s)
    ensures forall i :: 0 <= i < |s| ==> !IsSpace(s[i])
    ensures '[' !in s
  {
  }
}
