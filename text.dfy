/**
 * The text handling the serial reader relies on: Python's str.strip(),
 * str.split(sep) and float() on one field, stated over Dafny strings.
 * Numbers are exact reals; the digit strings an integer prints as are the
 * partner that float() reads back.
 */
module Text {
  import opened Optional
  import opened Seqs

  // ---------------------------------------------------------------------------
  // Whitespace and str.strip()
  // ---------------------------------------------------------------------------

  /** The characters for which Python's str.isspace() holds. */
  predicate IsSpace(c: char) {
    ('\t' <= c <= '\r') || ('\U{1C}' <= c <= ' ') || c == '\U{85}' || c == '\U{A0}'
    || c == '\U{1680}' || ('\U{2000}' <= c <= '\U{200A}') || c == '\U{2028}' || c == '\U{2029}'
    || c == '\U{202F}' || c == '\U{205F}' || c == '\U{3000}'
  }

  predicate AllSpace(s: string) {
    forall i :: 0 <= i < |s| ==> IsSpace(s[i])
  }

  /** A string with nothing to strip at either end. */
  predicate Trimmed(t: string) {
    t == [] || (!IsSpace(t[0]) && !IsSpace(t[|t| - 1]))
  }

  /** Length of the run of whitespace at the start of s. */
  function LeadingSpaces(s: string): (n: nat)
    ensures n <= |s| && AllSpace(s[..n])
    ensures n < |s| ==> !IsSpace(s[n])
  {
    if s == [] || !IsSpace(s[0]) then 0 else 1 + LeadingSpaces(s[1..])
  }

  /** Length of the run of whitespace at the end of s. */
  function TrailingSpaces(s: string): (n: nat)
    ensures n <= |s| && AllSpace(s[|s| - n..])
    ensures n < |s| ==> !IsSpace(s[|s| - 1 - n])
  {
    if s == [] || !IsSpace(s[|s| - 1]) then 0 else 1 + TrailingSpaces(s[..|s| - 1])
  }

  /**
   * str.strip() with no argument: drop whitespace at both ends. What is kept
   * is the middle of s, the cut ends hold only whitespace, and nothing more
   * is left to strip.
   */
  function Strip(s: string): (r: string)
    ensures LeadingSpaces(s) + |r| <= |s|
    ensures r == s[LeadingSpaces(s)..LeadingSpaces(s) + |r|]
    ensures AllSpace(s[LeadingSpaces(s) + |r|..])
    ensures r == [] <==> AllSpace(s)
    ensures Trimmed(r)
  {
    var lead := LeadingSpaces(s);
    if lead == |s| then [] else s[lead..|s| - TrailingSpaces(s)]
  }

  /** Strip removes whitespace only: every other character occurs as often after it as before. */
  lemma StripKeepsOthers(s: string, c: char)
    requires !IsSpace(c)
    ensures multiset(Strip(s))[c] == multiset(s)[c]
  {
    var lead, r := LeadingSpaces(s), Strip(s);
    var end := lead + |r|;
    MultisetThirds(s, lead, end);
    assert multiset(s[..lead])[c] == 0 by {
      assert AllSpace(s[..lead]);
    }
    assert multiset(s[end..])[c] == 0 by {
      assert AllSpace(s[end..]);
    }
  }

  lemma {:induction false} LeadingOfPadded(pre: string, t: string)
    requires AllSpace(pre) && t != [] && !IsSpace(t[0])
    ensures LeadingSpaces(pre + t) == |pre|
  {
    if pre != [] {
      assert (pre + t)[1..] == pre[1..] + t;
      LeadingOfPadded(pre[1..], t);
    }
  }

  lemma {:induction false} TrailingOfPadded(t: string, post: string)
    requires AllSpace(post) && t != [] && !IsSpace(t[|t| - 1])
    ensures TrailingSpaces(t + post) == |post|
  {
    if post != [] {
      assert (t + post)[..|t + post| - 1] == t + post[..|post| - 1];
      TrailingOfPadded(t, post[..|post| - 1]);
    }
  }

  /** Strip undoes any whitespace padding of a trimmed string. */
  lemma StripPadded(pre: string, t: string, post: string)
    requires AllSpace(pre) && AllSpace(post) && Trimmed(t)
    ensures Strip(pre + t + post) == t
  {
    var s := pre + t + post;
    if t == [] {
      assert AllSpace(s) by {
        forall i | 0 <= i < |s| ensures IsSpace(s[i]) {
          if i < |pre| { assert s[i] == pre[i]; } else { assert s[i] == post[i - |pre|]; }
        }
      }
    } else {
      assert s == pre + (t + post);
      LeadingOfPadded(pre, t + post);
      TrailingOfPadded(pre + t, post);
      assert s[|pre|..|s| - |post|] == t;
    }
  }

  /** Strip leaves a string with nothing to strip unchanged. */
  lemma StripTrimmed(t: string)
    requires Trimmed(t)
    ensures Strip(t) == t
  {
    StripPadded([], t, []);
    assert [] + t + [] == t;
  }

  // ---------------------------------------------------------------------------
  // str.split(sep) and its inverse, sep.join(fields)
  // ---------------------------------------------------------------------------

  /** str.split(sep) for a one-character separator: the pieces between separators, empty ones included. */
  function Split(s: string, sep: char): (r: seq<string>)
    ensures |r| >= 1
    ensures forall i :: 0 <= i < |r| ==> sep !in r[i]
  {
    if s == [] then [[]]
    else
      var rest := Split(s[1..], sep);
      if s[0] == sep then [[]] + rest else [[s[0]] + rest[0]] + rest[1..]
  }

  /** A split gives one piece more than there are separators. */
  lemma {:induction false} SplitCount(s: string, sep: char)
    ensures |Split(s, sep)| == multiset(s)[sep] + 1
  {
    if s != [] {
      SplitCount(s[1..], sep);
      assert s == [s[0]] + s[1..];
    }
  }

  /** sep.join(fields). */
  function Join(fields: seq<string>, sep: char): string {
    if fields == [] then []
    else if |fields| == 1 then fields[0]
    else fields[0] + [sep] + Join(fields[1..], sep)
  }

  /** sep.join of three fields. */
  lemma JoinThree(a: string, b: string, c: string, sep: char)
    ensures Join([a, b, c], sep) == a + [sep] + b + [sep] + c
  {
    assert [a, b, c][1..] == [b, c] && [b, c][1..] == [c];
    assert Join([c], sep) == c;
    assert Join([b, c], sep) == b + [sep] + c;
    assert Join([a, b, c], sep) == a + [sep] + (b + [sep] + c);
  }

  /** Joining a field in front of at least one other puts one separator between them. */
  lemma JoinCons(f: string, fields: seq<string>, sep: char)
    requires fields != []
    ensures Join([f] + fields, sep) == f + [sep] + Join(fields, sep)
  {
    assert ([f] + fields)[1..] == fields;
  }

  /** The pieces of a split: a separator first gives an empty first piece, anything else opens the first piece. */
  lemma SplitCons(s: string, sep: char)
    requires s != []
    ensures var rest := Split(s[1..], sep);
      Split(s, sep) == if s[0] == sep then [[]] + rest else [[s[0]] + rest[0]] + rest[1..]
  {
  }

  /** Three separator-free fields joined by the separator split back into themselves. */
  lemma SplitThree(a: string, b: string, c: string, sep: char)
    requires sep !in a && sep !in b && sep !in c
    ensures Split(a + [sep] + b + [sep] + c, sep) == [a, b, c]
  {
    JoinThree(a, b, c, sep);
    SplitJoin([a, b, c], sep);
  }

  /** Joining the pieces of a split gives back the original string. */
  lemma {:induction false} JoinSplit(s: string, sep: char)
    ensures Join(Split(s, sep), sep) == s
  {
    if s != [] {
      var rest := Split(s[1..], sep);
      JoinSplit(s[1..], sep);
      SplitCons(s, sep);
      if s[0] == sep {
        JoinCons([], rest, sep);
        assert [] + [sep] + s[1..] == s;
      } else {
        JoinFront(s[0], rest, sep);
        assert [s[0]] + s[1..] == s;
      }
    }
  }

  /** A character put in front of the first piece comes out in front of the joined text. */
  lemma JoinFront(c: char, rest: seq<string>, sep: char)
    requires rest != []
    ensures Join([[c] + rest[0]] + rest[1..], sep) == [c] + Join(rest, sep)
  {
    if |rest| > 1 {
      JoinCons([c] + rest[0], rest[1..], sep);
      JoinCons(rest[0], rest[1..], sep);
      assert rest == [rest[0]] + rest[1..];
      AppendAssoc([c], rest[0], [sep] + Join(rest[1..], sep));
    }
  }

  /** Splitting text free of the separator, followed by more text, extends the first piece. */
  lemma {:induction false} SplitPrefix(a: string, b: string, sep: char)
    requires sep !in a
    ensures Split(a + b, sep) == [a + Split(b, sep)[0]] + Split(b, sep)[1..]
  {
    if a != [] {
      var ab := a + b;
      assert ab[0] == a[0] != sep && ab[1..] == a[1..] + b;
      SplitPrefix(a[1..], b, sep);
      SplitCons(ab, sep);
      var rest, r := Split(a[1..] + b, sep), Split(b, sep);
      assert rest[0] == a[1..] + r[0] && rest[1..] == r[1..];
      assert [a[0]] + (a[1..] + r[0]) == a + r[0];
    } else {
      var r := Split(b, sep);
      assert a + b == b;
      assert r == [r[0]] + r[1..];
      assert a + r[0] == r[0];
    }
  }

  /** Splitting what Join built gives back the fields, when none of them holds the separator. */
  lemma {:induction false} SplitJoin(fields: seq<string>, sep: char)
    requires |fields| > 0
    requires forall i :: 0 <= i < |fields| ==> sep !in fields[i]
    ensures Split(Join(fields, sep), sep) == fields
  {
    if |fields| == 1 {
      SplitPrefix(fields[0], [], sep);
      assert fields[0] + [] == fields[0];
    } else {
      var tail := Join(fields[1..], sep);
      SplitJoin(fields[1..], sep);
      assert Join(fields, sep) == fields[0] + ([sep] + tail);
      SplitPrefix(fields[0], [sep] + tail, sep);
      assert ([sep] + tail)[1..] == tail;
      assert Split([sep] + tail, sep) == [[]] + Split(tail, sep);
      assert fields[0] + [] == fields[0];
      assert fields == [fields[0]] + fields[1..];
    }
  }

  // ---------------------------------------------------------------------------
  // float() on one field
  // ---------------------------------------------------------------------------

  predicate IsDigit(c: char) {
    '0' <= c <= '9'
  }

  predicate AllDigits(s: string) {
    forall i :: 0 <= i < |s| ==> IsDigit(s[i])
  }

  /** The characters a numeral float() accepts may contain. */
  predicate IsNumeralChar(c: char) {
    IsDigit(c) || c == '+' || c == '-' || c == '.' || c == 'e' || c == 'E'
  }

  predicate AllNumeralChars(s: string) {
    forall i :: 0 <= i < |s| ==> IsNumeralChar(s[i])
  }

  function DigitValue(c: char): nat
    requires IsDigit(c)
  {
    (c as int - '0' as int) as nat
  }

  /** The value of a string of decimal digits, most significant first. */
  function DigitsValue(s: string): nat
    requires AllDigits(s)
  {
    if s == [] then 0 else 10 * DigitsValue(s[..|s| - 1]) + DigitValue(s[|s| - 1])
  }

  function Pow10(n: nat): (r: nat)
    ensures r >= 1
  {
    if n == 0 then 1 else 10 * Pow10(n - 1)
  }

  /** Index of the first c in s, or |s| when there is none. */
  function IndexOf(s: string, c: char): (i: nat)
    ensures i <= |s|
    ensures i < |s| ==> s[i] == c
    ensures forall j :: 0 <= j < i ==> s[j] != c
  {
    if s == [] then 0 else if s[0] == c then 0 else 1 + IndexOf(s[1..], c)
  }

  /** The part before an exponent: digits with at most one '.', at least one digit. */
  function ParseMantissa(s: string): Option<real> {
    var p := IndexOf(s, '.');
    if p == |s| then
      if s != [] && AllDigits(s) then Some(DigitsValue(s) as real) else None
    else
      var whole, frac := s[..p], s[p + 1..];
      if AllDigits(whole) && AllDigits(frac) && |whole| + |frac| > 0 then
        Some(DigitsValue(whole) as real + DigitsValue(frac) as real / Pow10(|frac|) as real)
      else None
  }

  /** The part after 'e' or 'E': an optional sign and at least one digit. */
  function ParseExponent(s: string): Option<int> {
    var signed := s != [] && (s[0] == '+' || s[0] == '-');
    var digits := if signed then s[1..] else s;
    if digits != [] && AllDigits(digits) then
      Some(if signed && s[0] == '-' then -(DigitsValue(digits) as int) else DigitsValue(digits))
    else None
  }

  function Scale(m: real, e: int): real {
    if e >= 0 then m * Pow10(e) as real else m / Pow10(-e) as real
  }

  /** A numeral without a leading sign. */
  function ParseUnsigned(s: string): Option<real> {
    var e := if IndexOf(s, 'e') <= IndexOf(s, 'E') then IndexOf(s, 'e') else IndexOf(s, 'E');
    if e == |s| then ParseMantissa(s)
    else
      match (ParseMantissa(s[..e]), ParseExponent(s[e + 1..]))
      case (Some(m), Some(x)) => Some(Scale(m, x))
      case _ => None
  }

  /**
   * float() on an already stripped field, for the finite decimal numerals:
   * an optional sign, digits with an optional '.', an optional exponent.
   * Anything holding another character (a letter, a comma, a space) is refused.
   */
  function ParseNumber(s: string): Option<real> {
    if s != [] && (s[0] == '+' || s[0] == '-') then
      match ParseUnsigned(s[1..])
      case None => None
      case Some(v) => Some(if s[0] == '-' then -v else v)
    else ParseUnsigned(s)
  }

  // ---------------------------------------------------------------------------
  // How an integer prints, and float() reading it back
  // ---------------------------------------------------------------------------

  function DigitChar(d: nat): (c: char)
    requires d < 10
    ensures IsDigit(c) && DigitValue(c) == d
  {
    ('0' as int + d) as char
  }

  /** The decimal digits of n, most significant first, without leading zeros. */
  function NatDigits(n: nat): (s: string)
    ensures s != [] && AllDigits(s)
  {
    if n < 10 then [DigitChar(n)] else NatDigits(n / 10) + [DigitChar(n % 10)]
  }

  /** str(n) for an integer n. */
  function FormatInt(n: int): string {
    if n < 0 then "-" + NatDigits(-n) else NatDigits(n)
  }

  lemma {:induction false} NatDigitsValue(n: nat)
    ensures DigitsValue(NatDigits(n)) == n
  {
    if n >= 10 {
      NatDigitsValue(n / 10);
      var s := NatDigits(n);
      assert s[..|s| - 1] == NatDigits(n / 10);
    }
  }

  /** float() reads a plain run of digits as its decimal value. */
  lemma ParseDigits(d: string)
    requires d != [] && AllDigits(d)
    ensures ParseUnsigned(d) == Some(DigitsValue(d) as real)
  {
    assert !IsDigit('e') && !IsDigit('E') && !IsDigit('.');
    assert IndexOf(d, 'e') == |d| && IndexOf(d, 'E') == |d| && IndexOf(d, '.') == |d|;
  }

  /** A minus sign followed by a run of digits reads as the negated value. */
  lemma ParseNegated(f: string)
    requires |f| > 1 && f[0] == '-' && AllDigits(f[1..])
    ensures ParseNumber(f) == Some(-(DigitsValue(f[1..]) as real))
  {
    ParseDigits(f[1..]);
  }

  /** A run of digits reads as its value. */
  lemma ParsePlain(d: string)
    requires d != [] && AllDigits(d)
    ensures ParseNumber(d) == Some(DigitsValue(d) as real)
  {
    ParseDigits(d);
    assert d[0] != '+' && d[0] != '-';
  }

  /** float(str(n)) == n for every integer n. */
  lemma ParseFormatInt(n: int)
    ensures ParseNumber(FormatInt(n)) == Some(n as real)
  {
    var f := FormatInt(n);
    if n < 0 {
      NatDigitsValue(-n);
      assert f[1..] == NatDigits(-n);
      ParseNegated(f);
      assert DigitsValue(f[1..]) as real == -(n as real);
    } else {
      NatDigitsValue(n);
      ParsePlain(f);
    }
  }

  /** A printed integer contains no whitespace, no comma and no other non-numeral character. */
  lemma FormatIntChars(n: int)
    ensures FormatInt(n) != [] && AllNumeralChars(FormatInt(n)) && Trimmed(FormatInt(n))
  {
  }
}
