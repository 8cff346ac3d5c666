/** Java's String.trim and decimal digit strings, on `string` = `seq<char>`. */
module StringUtil {

  /** String.trim removes every character whose code is at most U+0020. */
  predicate IsSpace(c: char) {
    c <= ' '
  }

  /** A string that String.trim leaves unchanged. */
  predicate Trimmed(s: string) {
    s == [] || (!IsSpace(s[0]) && !IsSpace(s[|s| - 1]))
  }

  /** The index of the first non-space character at or after `i`, or |s| if there is none. */
  function SkipSpaces(s: string, i: nat): (r: nat)
    requires i <= |s|
    ensures i <= r <= |s|
    ensures r < |s| ==> !IsSpace(s[r])
    ensures forall k :: i <= k < r ==> IsSpace(s[k])
    decreases |s| - i
  {
    if i < |s| && IsSpace(s[i]) then SkipSpaces(s, i + 1) else i
  }

  /** The index just past the last non-space character of s[lo..j], or `lo` if there is none. */
  function SkipSpacesBack(s: string, lo: nat, j: nat): (r: nat)
    requires lo <= j <= |s|
    ensures lo <= r <= j
    ensures r > lo ==> !IsSpace(s[r - 1])
    ensures forall k :: r <= k < j ==> IsSpace(s[k])
    decreases j
  {
    if j > lo && IsSpace(s[j - 1]) then SkipSpacesBack(s, lo, j - 1) else j
  }

  /** `r` sits in `s` at offset `a`, with nothing but spaces before and after it. */
  predicate SpacesAround(s: string, a: nat, r: string) {
    a + |r| <= |s| && r == s[a..a + |r|]
    && (forall k :: 0 <= k < a ==> IsSpace(s[k]))
    && (forall k :: a + |r| <= k < |s| ==> IsSpace(s[k]))
  }

  /**
   * String.trim: the text between the leading and the trailing run of spaces.
   * The result has no space at either end, is a piece of `s` with only spaces
   * around it, and is `s` itself when `s` has no surrounding spaces.
   */
  function Trim(s: string): (r: string)
    ensures Trimmed(r)
    ensures exists a :: SpacesAround(s, a, r)
    ensures Trimmed(s) ==> r == s
  {
    var a := SkipSpaces(s, 0);
    var b := SkipSpacesBack(s, a, |s|);
    assert Trimmed(s) && s != [] ==> a == 0 && b == |s|;
    assert SpacesAround(s, a, s[a..b]);
    s[a..b]
  }

  /** Trimming twice is trimming once. */
  lemma {:induction false} TrimIdempotent(s: string)
    ensures Trim(Trim(s)) == Trim(s)
  {
    assert Trimmed(Trim(s));
  }

  /** Appending a space does not move the first non-space character, unless there is none. */
  lemma {:induction false} SkipSpacesAppend(s: string, c: char, i: nat)
    requires IsSpace(c) && i <= |s|
    ensures SkipSpaces(s + [c], i) == if SkipSpaces(s, i) < |s| then SkipSpaces(s, i) else |s| + 1
    decreases |s| - i
  {
    var t := s + [c];
    assert t[i] == if i < |s| then s[i] else c;
    if i < |s| && IsSpace(s[i]) {
      SkipSpacesAppend(s, c, i + 1);
    }
  }

  /** Scanning backwards within `s` gives the same index in any extension of `s`. */
  lemma {:induction false} SkipSpacesBackAppend(s: string, c: char, lo: nat, j: nat)
    requires lo <= j <= |s|
    ensures SkipSpacesBack(s + [c], lo, j) == SkipSpacesBack(s, lo, j)
    decreases j
  {
    if j > lo {
      assert (s + [c])[j - 1] == s[j - 1];
      SkipSpacesBackAppend(s, c, lo, j - 1);
    }
  }

  /** Trailing whitespace makes no difference to the trimmed text. */
  lemma {:induction false} TrimAppendSpace(s: string, c: char)
    requires IsSpace(c)
    ensures Trim(s + [c]) == Trim(s)
  {
    var t := s + [c];
    SkipSpacesAppend(s, c, 0);
    var a := SkipSpaces(s, 0);
    if a < |s| {
      var b := SkipSpacesBack(s, a, |s|);
      assert SkipSpacesBack(t, a, |t|) == b by {
        assert IsSpace(t[|t| - 1]);
        assert SkipSpacesBack(t, a, |t|) == SkipSpacesBack(t, a, |s|);
        SkipSpacesBackAppend(s, c, a, |s|);
      }
      assert t[a..b] == s[a..b];
    } else {
      assert SkipSpaces(t, 0) == |t|;
    }
  }

  predicate IsDigit(c: char) {
    '0' <= c <= '9'
  }

  predicate AllDigits(s: string) {
    forall k :: 0 <= k < |s| ==> IsDigit(s[k])
  }

  /** The number a string of decimal digits denotes (leading zeros allowed). */
  function DecimalValue(s: string): nat
    requires AllDigits(s)
  {
    if s == [] then 0 else 10 * DecimalValue(s[..|s| - 1]) + (s[|s| - 1] as int - '0' as int)
  }

  /** The usual decimal spelling of `n`, without leading zeros. */
  function Numeral(n: nat): (r: string)
    ensures |r| >= 1 && AllDigits(r)
  {
    if n < 10 then [('0' as int + n) as char] else Numeral(n / 10) + [('0' as int + n % 10) as char]
  }

  /** Reading back the spelling of a number gives the number. */
  lemma {:induction false} NumeralRoundTrip(n: nat)
    ensures DecimalValue(Numeral(n)) == n
  {
    if n >= 10 {
      var s := Numeral(n);
      assert s[..|s| - 1] == Numeral(n / 10);
      NumeralRoundTrip(n / 10);
    }
  }
}
