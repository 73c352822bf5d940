/** The regular expressions the form validators test, stated as predicates on the
    matched string. A regular expression `^A+B...$` matches when the string splits
    into pieces that each part accepts, so each pattern is written as the existence
    of the split points, and a second, direct characterisation is proved equivalent. */
module Patterns {
  import opened Text

  // ------------------------------------------------------------- /^[^\s@]+@[^\s@]+\.[^\s@]+$/

  /** One `[^\s@]+` piece: nonempty, no white space and no '@'. */
  predicate EmailPiece(s: string) {
    |s| > 0 && forall i :: 0 <= i < |s| ==> !IsSpace(s[i]) && s[i] != '@'
  }

  /** The pattern matches with the '@' at `at` and the literal '.' at `dot`. */
  predicate EmailSplit(s: string, at: nat, dot: nat) {
    at < dot < |s| && s[at] == '@' && s[dot] == '.' &&
    EmailPiece(s[..at]) && EmailPiece(s[at + 1..dot]) && EmailPiece(s[dot + 1..])
  }

  /** `/^[^\s@]+@[^\s@]+\.[^\s@]+$/.test(s)`. */
  predicate EmailRegex(s: string) {
    exists at: nat, dot: nat | at < dot < |s| :: EmailSplit(s, at, dot)
  }

  function CountChar(s: string, c: char): (n: nat)
    ensures n <= |s|
    ensures n == 0 <==> c !in s
  {
    if s == [] then 0 else (if s[0] == c then 1 else 0) + CountChar(s[1..], c)
  }

  /** The index of the first `c` in `s`. */
  function IndexOf(s: string, c: char): (i: nat)
    requires c in s
    ensures i < |s| && s[i] == c && c !in s[..i]
  {
    if s[0] == c then 0 else 1 + IndexOf(s[1..], c)
  }

  /** The address shape in words: no white space, exactly one '@', something before it,
      and after it a '.' that is neither the first nor the last character. */
  predicate EmailShape(s: string) {
    NoSpace(s) && CountChar(s, '@') == 1 &&
    var at := IndexOf(s, '@');
    var domain := s[at + 1..];
    at > 0 && exists j :: 0 < j < |domain| - 1 && domain[j] == '.'
  }

  lemma {:induction false} CountCharSplit(s: string, k: nat, c: char)
    requires k <= |s|
    ensures CountChar(s, c) == CountChar(s[..k], c) + CountChar(s[k..], c)
  {
    if k > 0 {
      CountCharSplit(s[1..], k - 1, c);
      assert s[1..][..k - 1] == s[..k][1..];
      assert s[1..][k - 1..] == s[k..];
    }
  }

  /** The regular expression and the worded shape accept the same strings. */
  lemma EmailRegexIff(s: string)
    ensures EmailRegex(s) <==> EmailShape(s)
  {
    if EmailRegex(s) {
      var at: nat, dot: nat :| EmailSplit(s, at, dot);
      RegexGivesShape(s, at, dot);
    }
    if EmailShape(s) {
      var at := IndexOf(s, '@');
      var domain := s[at + 1..];
      var j :| 0 < j < |domain| - 1 && domain[j] == '.';
      ShapeGivesRegex(s, at, j);
    }
  }

  lemma RegexGivesShape(s: string, at: nat, dot: nat)
    requires EmailSplit(s, at, dot)
    ensures EmailShape(s)
  {
    SplitHasNoSpace(s, at, dot);
    SplitHasOneAt(s, at, dot);
    assert '@' !in s[..at];
    assert IndexOf(s, '@') == at by { IndexOfIsFirst(s, '@', at); }
    var domain := s[at + 1..];
    assert domain[dot - at - 1] == '.';
  }

  lemma SplitHasNoSpace(s: string, at: nat, dot: nat)
    requires EmailSplit(s, at, dot)
    ensures NoSpace(s)
  {
    var local, mid, top := s[..at], s[at + 1..dot], s[dot + 1..];
    forall i | 0 <= i < |s| ensures !IsSpace(s[i]) {
      if i < at { assert s[i] == local[i]; }
      else if at < i < dot { assert s[i] == mid[i - at - 1]; }
      else if dot < i { assert s[i] == top[i - dot - 1]; }
    }
  }

  lemma SplitHasOneAt(s: string, at: nat, dot: nat)
    requires EmailSplit(s, at, dot)
    ensures CountChar(s, '@') == 1
  {
    var rest, domain := s[at..], s[at + 1..];
    NoAtCounts(s[..at]);
    CountCharSplit(s, at, '@');
    assert rest[1..] == domain;
    DomainHasNoAt(s, at, dot);
  }

  lemma DomainHasNoAt(s: string, at: nat, dot: nat)
    requires EmailSplit(s, at, dot)
    ensures CountChar(s[at + 1..], '@') == 0
  {
    var domain, mid, top := s[at + 1..], s[at + 1..dot], s[dot + 1..];
    forall i | 0 <= i < |domain| ensures domain[i] != '@' {
      if i < dot - at - 1 {
        assert domain[i] == mid[i];
      } else if i > dot - at - 1 {
        assert domain[i] == top[i - (dot - at)];
      }
    }
  }

  lemma NoAtCounts(p: string)
    requires EmailPiece(p)
    ensures CountChar(p, '@') == 0
  {
    assert '@' !in p;
  }

  lemma IndexOfIsFirst(s: string, c: char, k: nat)
    requires k < |s| && s[k] == c && c !in s[..k]
    ensures IndexOf(s, c) == k
  {
  }

  lemma ShapeGivesRegex(s: string, at: nat, j: nat)
    requires EmailShape(s) && at == IndexOf(s, '@')
    requires 0 < j < |s[at + 1..]| - 1 && s[at + 1..][j] == '.'
    ensures EmailRegex(s)
  {
    var dot := at + 1 + j;
    OnlyAtAfter(s, at);
    var domain, mid, top := s[at + 1..], s[at + 1..dot], s[dot + 1..];
    assert EmailPiece(s[..at]);
    assert EmailPiece(mid) by {
      forall i | 0 <= i < |mid| ensures mid[i] != '@' && !IsSpace(mid[i]) {
        assert mid[i] == domain[i];
      }
    }
    assert EmailPiece(top) by {
      forall i | 0 <= i < |top| ensures top[i] != '@' && !IsSpace(top[i]) {
        assert top[i] == domain[j + 1 + i];
      }
    }
    assert EmailSplit(s, at, dot);
  }

  /** Past the only '@' there is no other. */
  lemma OnlyAtAfter(s: string, at: nat)
    requires CountChar(s, '@') == 1 && '@' in s && at == IndexOf(s, '@')
    ensures '@' !in s[at + 1..]
  {
    CountCharSplit(s, at + 1, '@');
    CountCharSplit(s[..at + 1], at, '@');
    assert s[..at + 1][..at] == s[..at];
    assert s[..at + 1][at..] == [s[at]];
  }

  /** Lower-casing the input changes neither the regular expression's verdict. */
  lemma EmailRegexIgnoresCase(s: string)
    ensures EmailRegex(Lower(s)) == EmailRegex(s)
  {
    var t := Lower(s);
    forall i | 0 <= i < |s| ensures SameClass(s[i], t[i]) {
      LowerCharKeepsClass(s[i]);
    }
    if EmailRegex(s) {
      var at: nat, dot: nat :| EmailSplit(s, at, dot);
      SplitTransfers(s, t, at, dot);
    }
    if EmailRegex(t) {
      var at: nat, dot: nat :| EmailSplit(t, at, dot);
      SplitTransfers(t, s, at, dot);
    }
  }

  /** Two characters the email pattern cannot tell apart. */
  predicate SameClass(c: char, d: char) {
    IsSpace(c) == IsSpace(d) && (c == '@') == (d == '@') && (c == '.') == (d == '.')
  }

  lemma SplitTransfers(s: string, t: string, at: nat, dot: nat)
    requires |s| == |t| && forall i :: 0 <= i < |s| ==> SameClass(s[i], t[i])
    requires EmailSplit(s, at, dot)
    ensures EmailSplit(t, at, dot)
  {
    assert SameClass(s[at], t[at]) && SameClass(s[dot], t[dot]);
    PieceTransfers(s, t, 0, at);
    PieceTransfers(s, t, at + 1, dot);
    PieceTransfers(s, t, dot + 1, |s|);
  }

  lemma PieceTransfers(s: string, t: string, a: nat, b: nat)
    requires |s| == |t| && forall i :: 0 <= i < |s| ==> SameClass(s[i], t[i])
    requires a <= b <= |s| && EmailPiece(s[a..b])
    ensures EmailPiece(t[a..b])
  {
    var p, q := s[a..b], t[a..b];
    forall i | 0 <= i < |q| ensures !IsSpace(q[i]) && q[i] != '@' {
      assert p[i] == s[a + i] && q[i] == t[a + i];
      assert SameClass(s[a + i], t[a + i]);
    }
  }

  // ------------------------------------------------------------- phone patterns

  /** `[\d\s\-\+\(\)]`, the characters main.js's phone pattern and contact.js's
      input filter both admit. */
  predicate IsPhoneChar(c: char) {
    IsDigit(c) || IsSpace(c) || c == '-' || c == '+' || c == '(' || c == ')'
  }

  /** `[\s\-\(\)]`, the separators contact.js strips before checking a phone number. */
  predicate IsPhoneSeparator(c: char) {
    IsSpace(c) || c == '-' || c == '(' || c == ')'
  }

  /** `/^\+?[\d]{10,}$/.test(s)`. */
  predicate PlusDigitsRegex(s: string) {
    (|s| >= 11 && s[0] == '+' && AllDigits(s[1..])) || (|s| >= 10 && AllDigits(s))
  }

  /** `/^[\d\s\-\+\(\)]{10,}$/.test(s)`. */
  predicate PhoneCharsRegex(s: string) {
    |s| >= 10 && forall i :: 0 <= i < |s| ==> IsPhoneChar(s[i])
  }
}
