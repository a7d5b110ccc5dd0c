/**
 * ValidationUtils: trimming, blank checks, and the email and phone patterns,
 * written as character predicates instead of regular expressions.
 */
module ValidationUtils {
  import opened Wrappers

  // ---------------------------------------------------------------- trim

  /** `String.trim` strips every character at or below U+0020 from both ends. */
  predicate IsTrimmable(c: char) { c <= ' ' }

  function TrimLeft(s: string): (r: string)
    ensures |r| <= |s| && r == s[|s| - |r|..]
    ensures r != [] ==> !IsTrimmable(r[0])
    ensures forall i :: 0 <= i < |s| - |r| ==> IsTrimmable(s[i])
  {
    if s != [] && IsTrimmable(s[0]) then
      var r := TrimLeft(s[1..]);
      TrimLeftStep(s, r);
      r
    else s
  }

  /** Stripping one leading trimmable character keeps `TrimLeft`'s contract. */
  lemma TrimLeftStep(s: string, r: string)
    requires s != [] && IsTrimmable(s[0])
    requires |r| <= |s| - 1 && r == s[1..][|s| - 1 - |r|..]
    requires forall i :: 0 <= i < |s| - 1 - |r| ==> IsTrimmable(s[1..][i])
    ensures r == s[|s| - |r|..]
    ensures forall i :: 0 <= i < |s| - |r| ==> IsTrimmable(s[i])
  {
    forall i | 0 < i < |s| - |r| ensures IsTrimmable(s[i]) {
      assert s[i] == s[1..][i - 1];
    }
  }

  function TrimRight(s: string): (r: string)
    ensures |r| <= |s| && r == s[..|r|]
    ensures r != [] ==> !IsTrimmable(r[|r| - 1])
    ensures forall i :: |r| <= i < |s| ==> IsTrimmable(s[i])
  {
    if s != [] && IsTrimmable(s[|s| - 1]) then
      var r := TrimRight(s[..|s| - 1]);
      TrimRightStep(s, s[..|s| - 1], r);
      r
    else s
  }

  /** Stripping one trailing trimmable character keeps `TrimRight`'s contract. */
  lemma TrimRightStep(s: string, init: string, r: string)
    requires s != [] && IsTrimmable(s[|s| - 1]) && init == s[..|s| - 1]
    requires |r| <= |init| && r == init[..|r|]
    requires forall i :: |r| <= i < |init| ==> IsTrimmable(init[i])
    ensures r == s[..|r|]
    ensures forall i :: |r| <= i < |s| ==> IsTrimmable(s[i])
  {
    forall i | |r| <= i < |s| - 1 ensures IsTrimmable(s[i]) {
      assert s[i] == init[i];
    }
  }

  /** `String.trim`: the longest slice of `s` that neither starts nor ends with a trimmable character. */
  function Trim(s: string): (r: string)
    ensures var lo := |s| - |TrimLeft(s)|; lo + |r| <= |s| && r == s[lo..lo + |r|]
    ensures r != [] ==> !IsTrimmable(r[0]) && !IsTrimmable(r[|r| - 1])
    ensures forall i :: 0 <= i < |s| - |TrimLeft(s)| ==> IsTrimmable(s[i])
    ensures forall i :: |s| - |TrimLeft(s)| + |r| <= i < |s| ==> IsTrimmable(s[i])
    ensures r == [] <==> forall i :: 0 <= i < |s| ==> IsTrimmable(s[i])
  {
    var l := TrimLeft(s);
    var r := TrimRight(l);
    assert r == s[|s| - |l|..|s| - |l| + |r|];
    r
  }

  /** A string that neither starts nor ends with a trimmable character is its own trim. */
  lemma TrimVisibleEnds(s: string)
    requires s != [] && !IsTrimmable(s[0]) && !IsTrimmable(s[|s| - 1])
    ensures Trim(s) == s
  {
    assert TrimLeft(s) == s;
    assert TrimRight(s) == s;
  }

  lemma TrimIdempotent(s: string)
    ensures Trim(Trim(s)) == Trim(s)
  {
    var t := Trim(s);
    if t != [] {
      TrimVisibleEnds(t);
    }
  }

  /** `ValidationUtils.isNotEmpty`: present and not blank, that is, holding a character above U+0020. */
  predicate IsNotEmpty(s: Option<string>)
    ensures IsNotEmpty(s) <==> s.Some? && exists i :: 0 <= i < |s.value| && !IsTrimmable(s.value[i])
  {
    s.Some? && Trim(s.value) != []
  }

  /** `ValidationUtils.sanitize`: null stays null, anything else is trimmed. */
  function Sanitize(s: Option<string>): (r: Option<string>)
    ensures r.Some? <==> s.Some?
    ensures r.Some? ==> r.value == Trim(s.value)
  {
    match s
    case None => None
    case Some(v) => Some(Trim(v))
  }

  lemma SanitizeIdempotent(s: Option<string>)
    ensures Sanitize(Sanitize(s)) == Sanitize(s)
  {
    if s.Some? { TrimIdempotent(s.value); }
  }

  // ---------------------------------------------------------- ASCII case

  predicate IsAsciiUpper(c: char) { 'A' <= c <= 'Z' }
  predicate IsAsciiLower(c: char) { 'a' <= c <= 'z' }
  predicate IsAsciiLetter(c: char) { IsAsciiUpper(c) || IsAsciiLower(c) }
  predicate IsDigit(c: char) { '0' <= c <= '9' }

  /** A small ASCII letter to its capital, 32 code points below; every other character alone. */
  function UpperChar(c: char): (u: char)
    ensures !IsAsciiLower(u)
    ensures IsAsciiLetter(c) <==> IsAsciiLetter(u)
    ensures IsAsciiLower(c) ==> IsAsciiUpper(u) && u as int == c as int - 32
    ensures !IsAsciiLower(c) ==> u == c
  {
    if IsAsciiLower(c) then (c as int - 32) as char else c
  }

  /** A capital ASCII letter to its small letter, 32 code points above; every other character alone. */
  function LowerChar(c: char): (l: char)
    ensures !IsAsciiUpper(l)
    ensures IsAsciiLetter(c) <==> IsAsciiLetter(l)
    ensures IsAsciiUpper(c) ==> IsAsciiLower(l) && l as int == c as int + 32
    ensures !IsAsciiUpper(c) ==> l == c
  {
    if IsAsciiUpper(c) then (c as int + 32) as char else c
  }

  /** `String.toUpperCase`, restricted to ASCII letters. */
  function ToUpper(s: string): (r: string)
    ensures |r| == |s|
    ensures forall i :: 0 <= i < |s| ==> r[i] == UpperChar(s[i])
  {
    seq(|s|, i requires 0 <= i < |s| => UpperChar(s[i]))
  }

  /** `String.toLowerCase`, restricted to ASCII letters. */
  function ToLower(s: string): (r: string)
    ensures |r| == |s|
    ensures forall i :: 0 <= i < |s| ==> r[i] == LowerChar(s[i])
  {
    seq(|s|, i requires 0 <= i < |s| => LowerChar(s[i]))
  }

  /** `String.equalsIgnoreCase`, restricted to ASCII letters: the two strings upper-case alike. */
  predicate EqualsIgnoreCase(a: string, b: string)
    ensures EqualsIgnoreCase(a, b) <==> ToUpper(a) == ToUpper(b)
  {
    |a| == |b| && forall i :: 0 <= i < |a| ==> UpperChar(a[i]) == UpperChar(b[i])
  }

  lemma UpperCaseEqualsIgnoringCase(s: string)
    ensures EqualsIgnoreCase(ToUpper(s), s)
    ensures forall i :: 0 <= i < |s| ==> !IsAsciiLower(ToUpper(s)[i])
  {
  }

  /** Two strings trimmable at the same positions are trimmed at the same cut. */
  lemma {:induction false} TrimLeftSameCut(s: string, t: string)
    requires |s| == |t| && forall i :: 0 <= i < |s| ==> (IsTrimmable(s[i]) <==> IsTrimmable(t[i]))
    ensures |TrimLeft(s)| == |TrimLeft(t)|
  {
    if s != [] && IsTrimmable(s[0]) {
      TrimLeftSameCut(s[1..], t[1..]);
    }
  }

  lemma {:induction false} TrimRightSameCut(s: string, t: string)
    requires |s| == |t| && forall i :: 0 <= i < |s| ==> (IsTrimmable(s[i]) <==> IsTrimmable(t[i]))
    ensures |TrimRight(s)| == |TrimRight(t)|
  {
    if s != [] && IsTrimmable(s[|s| - 1]) {
      TrimRightSameCut(s[..|s| - 1], t[..|t| - 1]);
    }
  }

  lemma TrimSameCut(s: string, t: string)
    requires |s| == |t| && forall i :: 0 <= i < |s| ==> (IsTrimmable(s[i]) <==> IsTrimmable(t[i]))
    ensures |s| - |TrimLeft(s)| == |t| - |TrimLeft(t)| && |Trim(s)| == |Trim(t)|
  {
    TrimLeftSameCut(s, t);
    var k := |s| - |TrimLeft(s)|;
    TrimRightSameCut(s[k..], t[k..]);
  }

  /** Case mapping never touches a trimmable character, so trimming and lower-casing commute. */
  lemma TrimLowerCommute(s: string)
    ensures Trim(ToLower(s)) == ToLower(Trim(s))
  {
    TrimSameCut(s, ToLower(s));
  }

  lemma TrimUpperCommute(s: string)
    ensures Trim(ToUpper(s)) == ToUpper(Trim(s))
  {
    TrimSameCut(s, ToUpper(s));
  }

  // --------------------------------------------------------------- email

  predicate IsLocalChar(c: char) {
    IsAsciiLetter(c) || IsDigit(c) || c == '+' || c == '_' || c == '.' || c == '-'
  }

  predicate IsDomainChar(c: char) {
    IsAsciiLetter(c) || IsDigit(c) || c == '.' || c == '-'
  }

  predicate AllLocal(s: string) { forall i :: 0 <= i < |s| ==> IsLocalChar(s[i]) }
  predicate AllDomain(s: string) { forall i :: 0 <= i < |s| ==> IsDomainChar(s[i]) }
  predicate AllLetters(s: string) { forall i :: 0 <= i < |s| ==> IsAsciiLetter(s[i]) }
  predicate AllDigits(s: string) { forall i :: 0 <= i < |s| ==> IsDigit(s[i]) }

  /**
   * The email pattern `[A-Za-z0-9+_.-]+ @ [A-Za-z0-9.-]+ . [A-Za-z]{2,}` read as a
   * regular expression: some position of '@' and some position of '.' split the
   * whole string into the four parts.
   */
  ghost predicate EmailPattern(t: string) {
    exists at, dot ::
      1 <= at && at + 1 < dot && dot + 3 <= |t| && t[at] == '@' && t[dot] == '.' &&
      AllLocal(t[..at]) && AllDomain(t[at + 1..dot]) && AllLetters(t[dot + 1..])
  }

  /** Position of the first `c` in `s`, or -1. */
  function IndexOf(s: string, c: char): (r: int)
    ensures -1 <= r < |s|
    ensures r >= 0 ==> s[r] == c && forall j :: 0 <= j < r ==> s[j] != c
    ensures r < 0 ==> forall j :: 0 <= j < |s| ==> s[j] != c
  {
    if s == [] then -1
    else if s[0] == c then 0
    else
      var k := IndexOf(s[1..], c);
      if k < 0 then -1 else k + 1
  }

  /** Position of the last `c` in `s`, or -1. */
  function LastIndexOf(s: string, c: char): (r: int)
    ensures -1 <= r < |s|
    ensures r >= 0 ==> s[r] == c && forall j :: r < j < |s| ==> s[j] != c
    ensures r < 0 ==> forall j :: 0 <= j < |s| ==> s[j] != c
  {
    if s == [] then -1
    else if s[|s| - 1] == c then |s| - 1
    else LastIndexOf(s[..|s| - 1], c)
  }

  /**
   * The pattern decided without search: no part but the top-level domain's
   * separator may hold '@', and the top-level domain holds no '.', so the
   * split falls at the first '@' and the last '.'.
   */
  predicate MatchesEmail(t: string) {
    var at := IndexOf(t, '@');
    var dot := LastIndexOf(t, '.');
    1 <= at && at + 1 < dot && dot + 3 <= |t| &&
    AllLocal(t[..at]) && AllDomain(t[at + 1..dot]) && AllLetters(t[dot + 1..])
  }

  lemma {:induction false} MatchesEmailIsPattern(t: string)
    ensures MatchesEmail(t) <==> EmailPattern(t)
  {
    var at := IndexOf(t, '@');
    var dot := LastIndexOf(t, '.');
    if MatchesEmail(t) {
      assert t[at] == '@' && t[dot] == '.';
    }
    if EmailPattern(t) {
      var a, d :| 1 <= a && a + 1 < d && d + 3 <= |t| && t[a] == '@' && t[d] == '.' &&
        AllLocal(t[..a]) && AllDomain(t[a + 1..d]) && AllLetters(t[d + 1..]);
      forall j | 0 <= j < a ensures t[j] != '@' {
        assert IsLocalChar(t[..a][j]);
      }
      assert at == a;
      forall j | d < j < |t| ensures t[j] != '.' {
        assert IsAsciiLetter(t[d + 1..][j - d - 1]);
      }
      assert dot == d;
    }
  }

  /**
   * `ValidationUtils.isValidEmail`: present, not blank, and the trimmed text
   * matches the pattern; the blank check is subsumed by the pattern.
   */
  predicate IsValidEmail(email: Option<string>)
    ensures IsValidEmail(email) <==> email.Some? && EmailPattern(Trim(email.value))
  {
    email.Some? && (MatchesEmailIsPattern(Trim(email.value)); Trim(email.value) != [] && MatchesEmail(Trim(email.value)))
  }

  /** Lower-casing keeps an address in the pattern: the character classes are closed under it. */
  lemma LowerKeepsEmailPattern(t: string)
    requires EmailPattern(t)
    ensures EmailPattern(ToLower(t))
  {
    var at, dot :| 1 <= at && at + 1 < dot && dot + 3 <= |t| && t[at] == '@' && t[dot] == '.' &&
      AllLocal(t[..at]) && AllDomain(t[at + 1..dot]) && AllLetters(t[dot + 1..]);
    var u := ToLower(t);
    assert u[..at] == ToLower(t[..at]);
    assert u[at + 1..dot] == ToLower(t[at + 1..dot]);
    assert u[dot + 1..] == ToLower(t[dot + 1..]);
    assert AllLocal(u[..at]) && AllDomain(u[at + 1..dot]) && AllLetters(u[dot + 1..]);
  }

  /**
   * The address a service stores, trimmed and lower-cased, is itself a valid
   * address whenever the raw input was.
   */
  lemma NormalizedEmailValid(raw: string)
    requires IsValidEmail(Some(raw))
    ensures IsValidEmail(Some(Trim(ToLower(raw))))
  {
    var t := Trim(raw);
    var u := ToLower(t);
    TrimLowerCommute(raw);
    assert EmailPattern(u) by {
      LowerKeepsEmailPattern(t);
    }
    assert Trim(u) == u by {
      TrimIdempotent(raw);
      TrimLowerCommute(t);
    }
    MatchesEmailIsPattern(u);
  }

  /** The stored address holds no upper-case letter. */
  lemma NormalizedEmailLowerCase(raw: string)
    ensures forall i :: 0 <= i < |Trim(ToLower(raw))| ==> !IsAsciiUpper(Trim(ToLower(raw))[i])
  {
    TrimLowerCommute(raw);
  }

  // --------------------------------------------------------------- phone

  /** The characters `[\s\-()]` that phone validation deletes before matching. */
  predicate IsPhoneSeparator(c: char) {
    c == ' ' || c == '\t' || c == '\n' || c == '\U{000B}' || c == '\U{000C}' || c == '\r' ||
    c == '-' || c == '(' || c == ')'
  }

  /** The separator removal before matching: every separator deleted, every other character kept in order. */
  function StripSeparators(s: string): (r: string)
    ensures |r| <= |s|
    ensures forall i :: 0 <= i < |r| ==> !IsPhoneSeparator(r[i]) && r[i] in s
    ensures forall c :: !IsPhoneSeparator(c) ==> multiset(r)[c] == multiset(s)[c]
    ensures (forall i :: 0 <= i < |s| ==> !IsPhoneSeparator(s[i])) ==> r == s
  {
    if s == [] then []
    else
      var init := StripSeparators(s[..|s| - 1]);
      assert s == s[..|s| - 1] + [s[|s| - 1]];
      if IsPhoneSeparator(s[|s| - 1]) then init else init + [s[|s| - 1]]
  }

  /** The positions of `s` that hold no separator, in increasing order. */
  function KeptPositions(s: string): (p: seq<nat>)
    ensures forall k :: 0 <= k < |p| ==> p[k] < |s| && !IsPhoneSeparator(s[p[k]])
    ensures forall a, b :: 0 <= a < b < |p| ==> p[a] < p[b]
    ensures forall i :: 0 <= i < |s| && !IsPhoneSeparator(s[i]) ==> i in p
  {
    if s == [] then []
    else
      var init := KeptPositions(s[..|s| - 1]);
      if IsPhoneSeparator(s[|s| - 1]) then init else init + [|s| - 1]
  }

  /** Order is kept: the k-th character left is the one at the k-th non-separator position. */
  lemma {:induction false} StripSeparatorsInOrder(s: string)
    ensures |StripSeparators(s)| == |KeptPositions(s)|
    ensures forall k :: 0 <= k < |KeptPositions(s)| ==> StripSeparators(s)[k] == s[KeptPositions(s)[k]]
  {
    if s != [] {
      var init := s[..|s| - 1];
      StripSeparatorsInOrder(init);
      var r, p := StripSeparators(init), KeptPositions(init);
      var r', p' := StripSeparators(s), KeptPositions(s);
      forall k | 0 <= k < |p| ensures r[k] == s[p[k]] {
        assert r[k] == init[p[k]];
      }
      if !IsPhoneSeparator(s[|s| - 1]) {
        assert r' == r + [s[|s| - 1]] && p' == p + [|s| - 1];
        forall k | 0 <= k < |p'| ensures r'[k] == s[p'[k]] {
          if k < |p| {
            assert r'[k] == r[k] && p'[k] == p[k];
          }
        }
      }
    }
  }

  lemma {:induction false} StripSeparatorsConcat(a: string, b: string)
    ensures StripSeparators(a + b) == StripSeparators(a) + StripSeparators(b)
    decreases |b|
  {
    if b == [] {
      assert a + b == a;
    } else {
      var b' := b[..|b| - 1];
      assert (a + b)[..|a + b| - 1] == a + b';
      StripSeparatorsConcat(a, b');
    }
  }

  /** The phone pattern `\+?[1-9]\d{1,14}`: an optional '+', then 2 to 15 digits, the first not '0'. */
  predicate MatchesPhone(t: string) {
    var digits := if |t| > 0 && t[0] == '+' then t[1..] else t;
    2 <= |digits| <= 15 && '1' <= digits[0] <= '9' && AllDigits(digits)
  }

  /** A phone that matches once its separators are deleted keeps a digit, which trim cannot remove. */
  lemma MatchingPhoneNotBlank(s: string)
    ensures MatchesPhone(StripSeparators(s)) ==> Trim(s) != []
  {
    var t := StripSeparators(s);
    if MatchesPhone(t) {
      var k := if t[0] == '+' then 1 else 0;
      assert IsDigit(t[k]) && t[k] in s;
      var i :| 0 <= i < |s| && s[i] == t[k];
      assert !IsTrimmable(s[i]);
    }
  }

  /**
   * `ValidationUtils.isValidPhone`: present, not blank, and matching the
   * pattern once separators are deleted; the blank check is subsumed.
   */
  predicate IsValidPhone(phone: Option<string>)
    ensures IsValidPhone(phone) <==> phone.Some? && MatchesPhone(StripSeparators(phone.value))
  {
    phone.Some? && (MatchingPhoneNotBlank(phone.value); Trim(phone.value) != [] && MatchesPhone(StripSeparators(phone.value)))
  }

  /** Inserting a space, hyphen or parenthesis anywhere never changes the verdict. */
  lemma SeparatorsDoNotMatter(a: string, c: char, b: string)
    requires IsPhoneSeparator(c)
    ensures IsValidPhone(Some(a + [c] + b)) == IsValidPhone(Some(a + b))
  {
    StripSeparatorsConcat(a + [c], b);
    StripSeparatorsConcat(a, [c]);
    StripSeparatorsConcat(a, b);
    assert StripSeparators([c]) == [] by {
      assert [c][..0] == [];
    }
  }
}
