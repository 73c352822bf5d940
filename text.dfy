/** The string operations the page scripts lean on, with JavaScript's meaning:
    the white-space class of `\s` and `trim`, `toLowerCase`, `includes`,
    number-to-text conversion, `parseInt`, `repeat` and `replace` of one character. */
module Text {
  import opened Seqs

  /** Characters matched by `\s` in a JavaScript regular expression and removed by
      `String.prototype.trim`: the ECMAScript WhiteSpace and LineTerminator code points. */
  predicate IsSpace(c: char) {
    c == '\t' || c == '\n' || c == '\U{B}' || c == '\U{C}' || c == '\r' || c == ' ' ||
    c == '\U{A0}' || c == '\U{1680}' || ('\U{2000}' <= c <= '\U{200A}') ||
    c == '\U{2028}' || c == '\U{2029}' || c == '\U{202F}' || c == '\U{205F}' ||
    c == '\U{3000}' || c == '\U{FEFF}'
  }

  /** `\d` and `[0-9]`: the ASCII decimal digits. */
  predicate IsDigit(c: char) {
    '0' <= c <= '9'
  }

  predicate AllDigits(s: string) {
    forall i :: 0 <= i < |s| ==> IsDigit(s[i])
  }

  predicate NoSpace(s: string) {
    forall i :: 0 <= i < |s| ==> !IsSpace(s[i])
  }

  function LowerChar(c: char): char {
    if 'A' <= c <= 'Z' then (c as int + 32) as char else c
  }

  /** `toLowerCase`, restricted to the ASCII letters. */
  function Lower(s: string): (r: string)
    ensures |r| == |s|
    ensures forall i :: 0 <= i < |s| ==> r[i] == LowerChar(s[i])
  {
    seq(|s|, i requires 0 <= i < |s| => LowerChar(s[i]))
  }

  lemma LowerCharKeepsClass(c: char)
    ensures IsSpace(LowerChar(c)) == IsSpace(c)
    ensures IsDigit(LowerChar(c)) == IsDigit(c)
    ensures (LowerChar(c) == '@') == (c == '@')
    ensures (LowerChar(c) == '.') == (c == '.')
  {
  }

  // ---------------------------------------------------------------- trim

  /** The first position at or after `i` that does not hold white space (or the
      end of `s`). */
  function SkipSpaceForward(s: string, i: nat): (k: nat)
    requires i <= |s|
    ensures i <= k <= |s|
    ensures forall j :: i <= j < k ==> IsSpace(s[j])
    ensures k == |s| || !IsSpace(s[k])
    decreases |s| - i
  {
    if i < |s| && IsSpace(s[i]) then SkipSpaceForward(s, i + 1) else i
  }

  /** Scanning back from `e`, but not below `lo`: the position just after the last
      character before `e` that is not white space (or `lo`). */
  function SkipSpaceBackward(s: string, lo: nat, e: nat): (k: nat)
    requires lo <= e <= |s|
    ensures lo <= k <= e
    ensures forall j :: k <= j < e ==> IsSpace(s[j])
    ensures k == lo || !IsSpace(s[k - 1])
    decreases e
  {
    if lo < e && IsSpace(s[e - 1]) then SkipSpaceBackward(s, lo, e - 1) else e
  }

  /** How many white-space characters `trim` removes from the front of `s`. */
  function TrimOffset(s: string): (k: nat)
    ensures k <= |s|
  {
    SkipSpaceForward(s, 0)
  }

  /** `s` without its leading white space, as `parseInt` first reads it. */
  function TrimStart(s: string): string {
    s[TrimOffset(s)..]
  }

  /** `String.prototype.trim`: the slice of `s` left after removing white space at
      both ends. The result neither starts nor ends with white space, and everything
      removed was white space. */
  function Trim(s: string): (r: string)
    ensures |r| <= |s| - TrimOffset(s)
    ensures r == s[TrimOffset(s)..TrimOffset(s) + |r|]
    ensures r == [] || (!IsSpace(r[0]) && !IsSpace(r[|r| - 1]))
    ensures forall i :: 0 <= i < TrimOffset(s) ==> IsSpace(s[i])
    ensures forall i :: TrimOffset(s) + |r| <= i < |s| ==> IsSpace(s[i])
  {
    var k := TrimOffset(s);
    s[k..SkipSpaceBackward(s, k, |s|)]
  }

  /** A trimmed string is empty exactly when the whole string is white space:
      JavaScript's `!value.trim()` test for a blank field. */
  lemma TrimEmptyIff(s: string)
    ensures Trim(s) == [] <==> forall i :: 0 <= i < |s| ==> IsSpace(s[i])
  {
    var r, k := Trim(s), TrimOffset(s);
    if r != [] {
      assert s[k] == r[0] && !IsSpace(s[k]);
    }
  }

  // ---------------------------------------------------------------- includes

  /** `s.includes(t)`, computed by trying each starting position in turn. */
  predicate Includes(s: string, t: string)
    decreases |s|
  {
    |t| <= |s| && (s[..|t|] == t || Includes(s[1..], t))
  }

  /** `t` occurs in `s` starting at position `i`. */
  predicate OccursAt(s: string, t: string, i: nat) {
    i + |t| <= |s| && s[i..i + |t|] == t
  }

  /** `includes` holds exactly when `t` occurs in `s` at some position. */
  lemma {:induction false} IncludesIff(s: string, t: string)
    ensures Includes(s, t) <==> exists i: nat :: OccursAt(s, t, i)
    decreases |s|
  {
    if |t| <= |s| && s[..|t|] == t {
      assert OccursAt(s, t, 0);
    } else if |t| <= |s| && |s| > 0 {
      IncludesIff(s[1..], t);
      if exists i: nat :: OccursAt(s, t, i) {
        var i: nat :| OccursAt(s, t, i);
        assert i != 0;
        assert OccursAt(s[1..], t, i - 1) by {
          assert s[1..][i - 1..i - 1 + |t|] == s[i..i + |t|];
        }
      }
      if Includes(s[1..], t) {
        var i: nat :| OccursAt(s[1..], t, i);
        assert OccursAt(s, t, i + 1) by {
          assert s[1..][i..i + |t|] == s[i + 1..i + 1 + |t|];
        }
      }
    }
  }

  /** Every string includes the empty string. */
  lemma IncludesEmpty(s: string)
    ensures Includes(s, "")
  {
    IncludesIff(s, "");
    assert OccursAt(s, "", 0);
  }

  // ---------------------------------------------------------------- numbers

  function DigitChar(d: nat): (c: char)
    requires d < 10
    ensures IsDigit(c)
  {
    ('0' as int + d) as char
  }

  function DigitValue(c: char): (d: nat)
    requires IsDigit(c)
    ensures d < 10 && DigitChar(d) == c
  {
    c as int - '0' as int
  }

  /** JavaScript's conversion of a non-negative integer to its decimal text, as done by
      a template literal: no sign, no leading zero. */
  function NatToString(n: nat): (s: string)
    ensures |s| >= 1 && AllDigits(s)
    ensures n > 0 ==> s[0] != '0'
    decreases n
  {
    if n < 10 then [DigitChar(n)] else NatToString(n / 10) + [DigitChar(n % 10)]
  }

  /** The value of a string of decimal digits. */
  function DigitsValue(s: string): nat
    requires AllDigits(s)
  {
    if s == [] then 0 else DigitsValue(s[..|s| - 1]) * 10 + DigitValue(s[|s| - 1])
  }

  /** Reading the decimal text of a number gives the number back. */
  lemma {:induction false} NatToStringRoundTrip(n: nat)
    ensures DigitsValue(NatToString(n)) == n
    decreases n
  {
    var s := NatToString(n);
    if n >= 10 {
      NatToStringRoundTrip(n / 10);
      assert s[..|s| - 1] == NatToString(n / 10);
    }
  }

  /** The decimal text of two numbers is the same only when the numbers are. */
  lemma NatToStringInjective(m: nat, n: nat)
    ensures NatToString(m) == NatToString(n) ==> m == n
  {
    NatToStringRoundTrip(m);
    NatToStringRoundTrip(n);
  }

  function LeadingDigits(s: string): (d: string)
    ensures |d| <= |s| && AllDigits(d) && d == s[..|d|]
    ensures |d| == |s| || !IsDigit(s[|d|])
  {
    if s != [] && IsDigit(s[0]) then [s[0]] + LeadingDigits(s[1..]) else []
  }

  /** `parseInt(s)` in base ten: white space is skipped, an optional sign is read,
      then the longest run of digits; `None` stands for `NaN`, which is the result
      when no digit follows. */
  function ParseInt(s: string): (r: Option<int>)
    ensures r.None? <==> LeadingDigits(SkipSign(TrimStart(s))) == []
  {
    var t := TrimStart(s);
    var neg := t != [] && t[0] == '-';
    var digits := LeadingDigits(SkipSign(t));
    var v: int := if digits == [] then 0 else DigitsValue(digits);
    if digits == [] then None
    else if neg then Some(-v)
    else Some(v)
  }

  function SkipSign(t: string): string {
    if t != [] && (t[0] == '-' || t[0] == '+') then t[1..] else t
  }

  /** `parseInt` reads back the decimal text of any natural number. */
  lemma ParseIntOfNatToString(n: nat)
    ensures ParseInt(NatToString(n)) == Some(n)
  {
    var s := NatToString(n);
    assert IsDigit(s[0]);
    NotSpaceIfDigit(s[0]);
    assert TrimOffset(s) == 0 && s[0..] == s;
    assert SkipSign(s) == s;
    DigitsPrefix(s);
    NatToStringRoundTrip(n);
  }

  lemma {:induction false} LeadingDigitsThen(d: string, rest: string)
    requires AllDigits(d) && rest != [] && !IsDigit(rest[0])
    ensures LeadingDigits(d + rest) == d
  {
    if d != [] {
      assert (d + rest)[1..] == d[1..] + rest;
      LeadingDigitsThen(d[1..], rest);
    } else {
      assert d + rest == rest;
    }
  }

  /** `parseInt` reads the leading number of a text that continues with a non-digit. */
  lemma ParseIntOfDigitsThen(d: string, rest: string)
    requires AllDigits(d) && d != [] && rest != [] && !IsDigit(rest[0])
    ensures ParseInt(d + rest) == Some(DigitsValue(d))
  {
    var s := d + rest;
    assert s[0] == d[0];
    NotSpaceIfDigit(d[0]);
    assert TrimOffset(s) == 0 && s[0..] == s;
    assert SkipSign(s) == s;
    LeadingDigitsThen(d, rest);
  }

  lemma NotSpaceIfDigit(c: char)
    requires IsDigit(c)
    ensures !IsSpace(c)
  {
  }

  lemma {:induction false} DigitsPrefix(s: string)
    requires AllDigits(s)
    ensures LeadingDigits(s) == s
  {
    if s != [] {
      DigitsPrefix(s[1..]);
    }
  }

  // ---------------------------------------------------------------- replace, repeat

  /** `s.replace(c, '')` with a one-character string pattern: only the first
      occurrence of `c` is removed. */
  function RemoveFirst(s: string, c: char): (r: string)
    ensures c in s ==> |r| == |s| - 1
    ensures c !in s ==> r == s
  {
    if s == [] then []
    else if s[0] == c then s[1..]
    else [s[0]] + RemoveFirst(s[1..], c)
  }

  /** `s.repeat(n)`. */
  function Repeat(s: string, n: nat): (r: string)
    ensures |r| == n * |s|
  {
    if n == 0 then [] else s + Repeat(s, n - 1)
  }

  /** A string repeated `n` times holds `n` copies of its one character and nothing else. */
  lemma {:induction false} RepeatChar(c: char, n: nat)
    ensures |Repeat([c], n)| == n
    ensures forall i :: 0 <= i < n ==> Repeat([c], n)[i] == c
  {
    if n > 0 {
      RepeatChar(c, n - 1);
    }
  }

  /** The characters of `s` for which `keep` holds: a global regular-expression
      `replace` with '' that deletes one character class. */
  function KeepChars(s: string, keep: char -> bool): (r: string)
    ensures |r| <= |s|
    ensures forall i :: 0 <= i < |r| ==> keep(r[i])
  {
    var r := Filter(s, keep);
    assert forall i :: 0 <= i < |r| ==> r[i] in r;
    r
  }
}
