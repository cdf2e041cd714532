/** The JavaScript string primitives the core relies on, over `string`
    (a sequence of characters): the whitespace class shared by `\s`,
    `String.prototype.trim` and `parseInt`; `trim`; the e-mail pattern
    `/\S+@\S+\.\S+/` applied without anchors; `parseInt` with its default radix;
    `Number.prototype.toString` on naturals; and `join` / `split` on one
    separator character. */
module Text {
  import opened Wrappers

  /** JavaScript's WhiteSpace and LineTerminator characters: the class `\s`
      matches and `trim` strips. */
  predicate IsSpace(c: char) {
    || c == ' ' || c == '\t' || c == '\n' || c == '\r'
    || c == '\U{000B}' || c == '\U{000C}' || c == '\U{00A0}' || c == '\U{1680}'
    || ('\U{2000}' <= c <= '\U{200A}')
    || c == '\U{2028}' || c == '\U{2029}' || c == '\U{202F}' || c == '\U{205F}'
    || c == '\U{3000}' || c == '\U{FEFF}'
  }

  /** Every character of `s` is whitespace (true of the empty string). */
  predicate AllSpace(s: string) {
    forall i :: 0 <= i < |s| ==> IsSpace(s[i])
  }

  /** The number of whitespace characters `s` starts with. */
  function LeadingSpaces(s: string): (n: nat)
    ensures n <= |s| && AllSpace(s[..n])
    ensures n == |s| || !IsSpace(s[n])
  {
    if s == [] || !IsSpace(s[0]) then 0
    else
      var m := LeadingSpaces(s[1..]);
      m + 1
  }

  /** The number of whitespace characters `s` ends with. */
  function TrailingSpaces(s: string): (n: nat)
    ensures n <= |s| && AllSpace(s[|s| - n..])
    ensures n == |s| || !IsSpace(s[|s| - n - 1])
  {
    if s == [] || !IsSpace(s[|s| - 1]) then 0
    else
      var m := TrailingSpaces(s[..|s| - 1]);
      m + 1
  }

  /** `s.trimStart()`: leading whitespace removed. */
  function TrimStart(s: string): string {
    s[LeadingSpaces(s)..]
  }

  /** `s.trimEnd()`: trailing whitespace removed. */
  function TrimEnd(s: string): string {
    s[..|s| - TrailingSpaces(s)]
  }

  /** `s.trim()`: the input with its leading and trailing whitespace cut
      off, so that what is left neither starts nor ends with whitespace. */
  function Trim(s: string): (r: string)
    ensures |r| <= |s|
    ensures exists a, b :: 0 <= a <= b <= |s| && r == s[a..b] && AllSpace(s[..a]) && AllSpace(s[b..])
    ensures r == [] || (!IsSpace(r[0]) && !IsSpace(r[|r| - 1]))
  {
    var a := LeadingSpaces(s);
    var t := s[a..];
    var m := TrailingSpaces(t);
    assert t[..|t| - m] == s[a..|s| - m];
    assert t[|t| - m..] == s[|s| - m..];
    TrimEnd(TrimStart(s))
  }

  /** `!s.trim()`: the string is empty once trimmed. */
  predicate IsBlank(s: string) {
    Trim(s) == ""
  }

  /** A string is blank exactly when all of its characters are whitespace. */
  lemma BlankIffAllSpace(s: string)
    ensures IsBlank(s) <==> AllSpace(s)
  {
    var n := LeadingSpaces(s);
    assert s == s[..n] + s[n..];
  }

  /** A string that neither starts nor ends with whitespace is its own trim. */
  lemma TrimUnpadded(s: string)
    requires s == [] || (!IsSpace(s[0]) && !IsSpace(s[|s| - 1]))
    ensures Trim(s) == s
  {
    assert TrimStart(s) == s;
  }

  // ---------------------------------------------------------------------------
  // The e-mail pattern /\S+@\S+\.\S+/ as `RegExp.prototype.test` uses it: with
  // no anchors, it succeeds when SOME substring matches.

  /** No whitespace among `s[lo..hi]`. */
  predicate NoSpaceIn(s: string, lo: nat, hi: nat)
    requires lo <= hi <= |s|
  {
    forall k :: lo <= k < hi ==> !IsSpace(s[k])
  }

  /** The substring around `s[p] == '@'` and `s[q] == '.'` matches the pattern:
      one non-space character before `@` suffices for the first `\S+`, the
      characters strictly between `@` and `.` are the second `\S+`, and one
      non-space character after `.` suffices for the third. */
  predicate EmailMatchAt(s: string, p: nat, q: nat)
    requires 0 < p && p + 1 < q && q + 1 < |s|
  {
    && !IsSpace(s[p - 1])
    && s[p] == '@'
    && NoSpaceIn(s, p + 1, q)
    && s[q] == '.'
    && !IsSpace(s[q + 1])
  }

  /** `/\S+@\S+\.\S+/.test(s)`. */
  predicate MatchesEmail(s: string) {
    exists p: nat, q: nat | 0 < p && p + 1 < q && q + 1 < |s| :: EmailMatchAt(s, p, q)
  }

  /** A matching string holds an `@` followed later by a `.`, and is at least
      five characters long. */
  lemma EmailShape(s: string)
    requires MatchesEmail(s)
    ensures exists p, q :: 0 <= p < q < |s| && s[p] == '@' && s[q] == '.'
    ensures |s| >= 5
  {
    var p: nat, q: nat :| 0 < p && p + 1 < q && q + 1 < |s| && EmailMatchAt(s, p, q);
    assert s[p] == '@' && s[q] == '.';
  }

  /** Because the pattern is not anchored, whatever surrounds a matching string
      (spaces included) does not stop it from matching. */
  lemma EmailUnanchored(pre: string, s: string, post: string)
    requires MatchesEmail(s)
    ensures MatchesEmail(pre + s + post)
  {
    var p: nat, q: nat :| 0 < p && p + 1 < q && q + 1 < |s| && EmailMatchAt(s, p, q);
    var t := pre + s + post;
    var n := |pre|;
    forall k | 0 <= k < |s| ensures t[n + k] == s[k] { }
    assert EmailMatchAt(t, n + p, n + q);
  }

  /** A blank string never matches (every character is whitespace). */
  lemma BlankNotEmail(s: string)
    ensures IsBlank(s) ==> !MatchesEmail(s)
  {
    BlankIffAllSpace(s);
  }

  /** The smallest shape of address the pattern accepts. */
  lemma EmailExample()
    ensures MatchesEmail("a@b.c")
    ensures MatchesEmail(" a@b.c ")
    ensures !MatchesEmail("a@b")
  {
    assert EmailMatchAt("a@b.c", 1, 3);
    EmailUnanchored(" ", "a@b.c", " ");
    assert " " + "a@b.c" + " " == " a@b.c ";
  }

  // ---------------------------------------------------------------------------
  // parseInt(s) with no radix argument, and n.toString() on naturals.

  /** The value of a digit character in radices up to 36; 36 when it is none. */
  function DigitValue(c: char): (d: nat)
    ensures d <= 36
  {
    if '0' <= c <= '9' then c as int - '0' as int
    else if 'a' <= c <= 'z' then c as int - 'a' as int + 10
    else if 'A' <= c <= 'Z' then c as int - 'A' as int + 10
    else 36
  }

  predicate IsDigit(c: char, radix: nat) {
    DigitValue(c) < radix
  }

  /** The longest prefix of `s` made of digits in `radix`. */
  function DigitPrefix(s: string, radix: nat): (r: string)
    ensures |r| <= |s| && r == s[..|r|]
    ensures forall i :: 0 <= i < |r| ==> IsDigit(r[i], radix)
    ensures |r| < |s| ==> !IsDigit(s[|r|], radix)
  {
    if s == [] || !IsDigit(s[0], radix) then []
    else [s[0]] + DigitPrefix(s[1..], radix)
  }

  /** The number a digit string denotes, most significant digit first. */
  function DigitsValue(ds: string, radix: nat): nat {
    if ds == [] then 0
    else DigitsValue(ds[..|ds| - 1], radix) * radix + DigitValue(ds[|ds| - 1])
  }

  /** `parseInt(s)`: leading whitespace skipped, one optional sign, a `0x`/`0X`
      prefix switching to radix 16, then the longest run of digits; `None` is
      `NaN` (no digit at all). A result of `-0` is `Some(0)`. */
  function ParseInt(s: string): (r: Option<int>)
    ensures AllSpace(s) ==> r.None?
    ensures |s| > 0 && '1' <= s[0] <= '9' ==> r == Some(DigitsValue(DigitPrefix(s, 10), 10))
  {
    ParseSigned(TrimStart(s))
  }

  /** The sign step of `parseInt`. */
  function ParseSigned(t: string): (r: Option<int>)
  {
    if |t| > 0 && t[0] == '-' then
      match ParseUnsigned(t[1..])
      case None => None
      case Some(v) => Some(-v)
    else if |t| > 0 && t[0] == '+' then ParseUnsigned(t[1..])
    else ParseUnsigned(t)
  }

  /** The radix step of `parseInt`: `0x` or `0X` selects radix 16, else 10. */
  function ParseUnsigned(u: string): (r: Option<int>)
  {
    if |u| >= 2 && u[0] == '0' && (u[1] == 'x' || u[1] == 'X') then ParseDigits(u[2..], 16)
    else ParseDigits(u, 10)
  }

  /** The digit step of `parseInt`: the value of the longest digit prefix, or
      `None` (NaN) when there is none. */
  function ParseDigits(v: string, radix: nat): (r: Option<int>)
  {
    var z := DigitPrefix(v, radix);
    if z == [] then None else Some(DigitsValue(z, radix))
  }

  /** The decimal digit character for `d`. */
  function DigitChar(d: nat): (c: char)
    requires d < 10
    ensures DigitValue(c) == d
  {
    ('0' as int + d) as char
  }

  /** `n.toString()` for a natural number: its decimal digits. */
  function NatToString(n: nat): (s: string)
    ensures |s| >= 1
    ensures forall i :: 0 <= i < |s| ==> '0' <= s[i] <= '9'
  {
    if n < 10 then [DigitChar(n)] else NatToString(n / 10) + [DigitChar(n % 10)]
  }

  lemma {:induction false} DigitsValueOfNatToString(n: nat)
    ensures DigitsValue(NatToString(n), 10) == n
  {
    var s := NatToString(n);
    if n >= 10 {
      DigitsValueOfNatToString(n / 10);
      assert s[..|s| - 1] == NatToString(n / 10);
    }
  }

  /** A string that starts with a non-space character is its own `TrimStart`. */
  lemma TrimStartNoLead(s: string)
    requires s != [] && !IsSpace(s[0])
    ensures TrimStart(s) == s
  {
  }

  /** A string of digits is its own longest digit prefix. */
  lemma DigitPrefixAll(s: string, radix: nat)
    requires forall i :: 0 <= i < |s| ==> IsDigit(s[i], radix)
    ensures DigitPrefix(s, radix) == s
  {
  }

  /** The decimal digits of `n` read back in radix 10 give `n`. */
  lemma ParseUnsignedOfNatToString(n: nat)
    ensures ParseUnsigned(NatToString(n)) == Some(n)
  {
    var s := NatToString(n);
    assert forall i :: 0 <= i < |s| ==> IsDigit(s[i], 10);
    DigitPrefixAll(s, 10);
    DigitsValueOfNatToString(n);
  }

  /** Reading back what `toString` wrote: `parseInt(String(n)) === n`. */
  lemma ParseIntOfNatToString(n: nat)
    ensures ParseInt(NatToString(n)) == Some(n)
  {
    var s := NatToString(n);
    assert '0' <= s[0] <= '9';
    TrimStartNoLead(s);
    ParseUnsignedOfNatToString(n);
  }

  // ---------------------------------------------------------------------------
  // Array.prototype.join and String.prototype.split on one separator character.

  /** `parts.join(sep)`. */
  function Join(parts: seq<string>, sep: char): (s: string)
  {
    if parts == [] then ""
    else if |parts| == 1 then parts[0]
    else parts[0] + [sep] + Join(parts[1..], sep)
  }

  /** `s.split(sep)`: the pieces between separators, at least one (`"".split(",")`
      is `[""]`). */
  function Split(s: string, sep: char): (r: seq<string>)
    ensures |r| >= 1
  {
    if s == [] then [""]
    else if s[0] == sep then [""] + Split(s[1..], sep)
    else var rest := Split(s[1..], sep); [[s[0]] + rest[0]] + rest[1..]
  }

  /** A string without the separator splits into itself. */
  lemma {:induction false} SplitNoSep(a: string, sep: char)
    requires sep !in a
    ensures Split(a, sep) == [a]
  {
    if a != [] {
      SplitNoSep(a[1..], sep);
      assert [a[0]] + a[1..] == a;
    }
  }

  /** Splitting at the first separator. */
  lemma {:induction false} SplitAtSep(a: string, b: string, sep: char)
    requires sep !in a
    ensures Split(a + [sep] + b, sep) == [a] + Split(b, sep)
  {
    if a == [] {
      assert a + [sep] + b == [sep] + b;
      assert ([sep] + b)[1..] == b;
    } else {
      assert (a + [sep] + b)[1..] == a[1..] + [sep] + b;
      SplitAtSep(a[1..], b, sep);
      assert [a[0]] + a[1..] == a;
    }
  }

  /** Splitting undoes joining when no part holds the separator. */
  lemma {:induction false} SplitJoin(parts: seq<string>, sep: char)
    requires |parts| >= 1
    requires forall i :: 0 <= i < |parts| ==> sep !in parts[i]
    ensures Split(Join(parts, sep), sep) == parts
  {
    if |parts| == 1 {
      SplitNoSep(parts[0], sep);
    } else {
      SplitJoin(parts[1..], sep);
      SplitAtSep(parts[0], Join(parts[1..], sep), sep);
      assert [parts[0]] + parts[1..] == parts;
    }
  }
}
