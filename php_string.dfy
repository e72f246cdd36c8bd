/**
 * The handful of PHP string primitives the plugin relies on, stated over
 * seq<char>: trim, strpos/stripos tests, str_replace/str_ireplace, strtolower,
 * the truthiness of a string, and decimal formatting of integers.
 */
module PhpString {

  /** The characters PHP's trim() strips by default. */
  predicate IsTrimChar(c: char) {
    c == ' ' || c == '\t' || c == '\n' || c == '\r' || c == '\0' || c == '\U{000B}'
  }

  predicate IsBlank(s: string) {
    forall k | 0 <= k < |s| :: IsTrimChar(s[k])
  }

  function TrimLeft(s: string): (r: string)
    ensures |r| <= |s|
    ensures r == [] || !IsTrimChar(r[0])
  {
    if s != [] && IsTrimChar(s[0]) then TrimLeft(s[1..]) else s
  }

  function TrimRight(s: string): (r: string)
    ensures |r| <= |s|
    ensures r == [] || !IsTrimChar(r[|r| - 1])
  {
    if s != [] && IsTrimChar(s[|s| - 1]) then TrimRight(s[..|s| - 1]) else s
  }

  lemma {:induction false} TrimLeftEmpty(s: string)
    ensures TrimLeft(s) == [] <==> IsBlank(s)
  {
    if s != [] {
      TrimLeftEmpty(s[1..]);
      assert forall k | 1 <= k < |s| :: s[k] == s[1..][k - 1];
    }
  }

  lemma {:induction false} TrimRightEmpty(s: string)
    ensures TrimRight(s) == [] <==> IsBlank(s)
  {
    if s != [] {
      TrimRightEmpty(s[..|s| - 1]);
      assert forall k | 0 <= k < |s| - 1 :: s[k] == s[..|s| - 1][k];
    }
  }

  lemma {:induction false} TrimRightKeepsFirst(s: string)
    ensures TrimRight(s) == [] || TrimRight(s)[0] == s[0]
  {
    if s != [] && IsTrimChar(s[|s| - 1]) {
      TrimRightKeepsFirst(s[..|s| - 1]);
    }
  }

  lemma TrimLeftNotBlank(s: string)
    ensures TrimLeft(s) == [] || !IsBlank(TrimLeft(s))
  {
    var l := TrimLeft(s);
    if l != [] {
      assert !IsTrimChar(l[0]);
    }
  }

  /** trim() strips everything from a string exactly when the string is blank. */
  lemma TrimEmptyIff(s: string)
    ensures TrimRight(TrimLeft(s)) == [] <==> IsBlank(s)
  {
    TrimLeftEmpty(s);
    TrimLeftNotBlank(s);
    TrimRightEmpty(TrimLeft(s));
  }

  /** A string that neither starts nor ends with a trim character is left as it is. */
  lemma TrimUntouched(s: string)
    requires s != [] && !IsTrimChar(s[0]) && !IsTrimChar(s[|s| - 1])
    ensures Trim(s) == s
  {
    assert TrimLeft(s) == s;
  }

  /** PHP trim(): the input without its leading and trailing trim characters. */
  function Trim(s: string): (r: string)
    ensures |r| <= |s|
    ensures r == [] || (!IsTrimChar(r[0]) && !IsTrimChar(r[|r| - 1]))
    ensures r == "" <==> IsBlank(s)
  {
    TrimEmptyIff(s);
    TrimRightKeepsFirst(TrimLeft(s));
    TrimRight(TrimLeft(s))
  }

  /** A string PHP treats as true in a boolean context: neither "" nor "0". */
  predicate Truthy(s: string) {
    s != "" && s != "0"
  }

  /** ASCII lower-casing, as strtolower() and the case-insensitive functions do. */
  function Lower(c: char): (r: char)
    ensures r == '<' <==> c == '<'
  {
    if 'A' <= c <= 'Z' then (c as int + 32) as char else c
  }

  function LowerStr(s: string): (r: string)
    ensures |r| == |s|
    ensures forall k | 0 <= k < |s| :: r[k] == Lower(s[k])
  {
    if s == [] then [] else [Lower(s[0])] + LowerStr(s[1..])
  }

  predicate CharEq(a: char, b: char, ci: bool) {
    if ci then Lower(a) == Lower(b) else a == b
  }

  /** s begins with p (compared case-insensitively when ci). */
  predicate StartsWith(s: string, p: string, ci: bool) {
    |p| <= |s| && forall k | 0 <= k < |p| :: CharEq(s[k], p[k], ci)
  }

  /** p occurs somewhere in s: strpos (or stripos when ci) does not return false. */
  predicate Occurs(s: string, p: string, ci: bool) {
    exists i | 0 <= i <= |s| - |p| :: StartsWith(s[i..], p, ci)
  }

  /** strpos($s, $p) !== false */
  predicate Contains(s: string, p: string) {
    Occurs(s, p, false)
  }

  /** stripos($s, $p) !== false */
  predicate ContainsCI(s: string, p: string) {
    Occurs(s, p, true)
  }

  /** strpos($s, $p) === 0 */
  predicate HasPrefix(s: string, p: string) {
    |p| <= |s| && s[..|p|] == p
  }

  lemma OccursAt(s: string, p: string, ci: bool, i: nat)
    requires i + |p| <= |s| && StartsWith(s[i..], p, ci)
    ensures Occurs(s, p, ci)
  {
  }

  lemma OccursInTail(s: string, p: string, ci: bool, n: nat)
    requires n <= |s| && Occurs(s[n..], p, ci)
    ensures Occurs(s, p, ci)
  {
    var i :| 0 <= i <= |s[n..]| - |p| && StartsWith(s[n..][i..], p, ci);
    assert s[n..][i..] == s[n + i..];
    OccursAt(s, p, ci, n + i);
  }

  /** strpos($s, $p) (stripos when ci): the first index where p occurs, or -1. */
  function IndexOf(s: string, p: string, ci: bool): (i: int)
    ensures i == -1 || 0 <= i <= |s| - |p|
    ensures i >= 0 ==> StartsWith(s[i..], p, ci)
    ensures forall j | 0 <= j < i :: !StartsWith(s[j..], p, ci)
    ensures i == -1 ==> forall j | 0 <= j <= |s| - |p| :: !StartsWith(s[j..], p, ci)
    decreases |s|
  {
    if |s| < |p| then -1
    else if StartsWith(s, p, ci) then
      assert s[0..] == s;
      0
    else
      var j := IndexOf(s[1..], p, ci);
      assert forall k | 1 <= k <= |s| :: s[1..][k - 1..] == s[k..];
      if j < 0 then -1 else j + 1
  }

  lemma IndexOfOccurs(s: string, p: string, ci: bool)
    ensures IndexOf(s, p, ci) >= 0 <==> Occurs(s, p, ci)
  {
  }

  /** Replacing in p + t, where t has no p: only the leading p is replaced. */
  lemma ReplaceAllLeading(p: string, t: string, r: string, ci: bool)
    requires |p| > 0 && !Occurs(t, p, ci)
    ensures ReplaceAll(p + t, p, r, ci) == r + t
  {
    var s := p + t;
    assert StartsWith(s, p, ci) by {
      forall k | 0 <= k < |p| ensures CharEq(s[k], p[k], ci) {
        assert s[k] == p[k];
      }
    }
    assert s[|p|..] == t;
    ReplaceAllAbsent(t, p, r, ci);
  }

  /** An occurrence of p carries an occurrence of every piece q of p with it. */
  lemma OccursWithin(s: string, p: string, q: string, ci: bool, j: nat)
    requires j <= |p| && StartsWith(p[j..], q, ci) && Occurs(s, p, ci)
    ensures Occurs(s, q, ci)
  {
    var i :| 0 <= i <= |s| - |p| && StartsWith(s[i..], p, ci);
    forall k | 0 <= k < |q| ensures CharEq(s[i + j..][k], q[k], ci) {
      assert s[i + j..][k] == s[i..][j + k];
      assert p[j..][k] == p[j + k];
    }
    OccursAt(s, q, ci, i + j);
  }

  /** An occurrence in the tail is an occurrence in the whole. */
  lemma OccursAppended(s: string, t: string, p: string, ci: bool)
    requires Occurs(t, p, ci)
    ensures Occurs(s + t, p, ci)
  {
    assert (s + t)[|s|..] == t;
    OccursInTail(s + t, p, ci, |s|);
  }

  /** strpos($s, $p) === 0 holds exactly when s begins with p. */
  lemma IndexOfZero(s: string, p: string)
    ensures IndexOf(s, p, false) == 0 <==> HasPrefix(s, p)
  {
    assert s[0..] == s;
    if HasPrefix(s, p) {
      assert forall k | 0 <= k < |p| :: s[k] == s[..|p|][k];
    }
    if IndexOf(s, p, false) == 0 {
      assert s[..|p|] == p;
    }
  }

  /**
   * str_replace($p, $r, $s) (str_ireplace when ci): every non-overlapping
   * occurrence of p, found left to right, is replaced by r. An empty p leaves
   * the subject as it is.
   */
  function ReplaceAll(s: string, p: string, r: string, ci: bool): string
    decreases |s|
  {
    if |p| == 0 || |s| < |p| then s
    else if StartsWith(s, p, ci) then r + ReplaceAll(s[|p|..], p, r, ci)
    else [s[0]] + ReplaceAll(s[1..], p, r, ci)
  }

  lemma {:induction false} ReplaceAllAbsent(s: string, p: string, r: string, ci: bool)
    requires !Occurs(s, p, ci)
    ensures ReplaceAll(s, p, r, ci) == s
    decreases |s|
  {
    if |p| == 0 || |s| < |p| {
    } else {
      assert s[0..] == s;
      assert !StartsWith(s, p, ci);
      if Occurs(s[1..], p, ci) {
        OccursInTail(s, p, ci, 1);
      }
      ReplaceAllAbsent(s[1..], p, r, ci);
    }
  }

  /** A string like an HTML tag: '<' first and nowhere else. */
  predicate TagShaped(t: string) {
    |t| > 0 && t[0] == '<' && forall k | 1 <= k < |t| :: t[k] != '<'
  }

  lemma CharEqLt(a: char, b: char, ci: bool)
    ensures CharEq(a, b, ci) ==> (a == '<' <==> b == '<')
  {
  }

  /**
   * When a replacement starts with '<', a prefix of the output free of '<'
   * was copied unchanged from the subject.
   */
  lemma {:induction false} ReplaceAllCopiesPrefix(x: string, p: string, r: string, ci: bool, m: nat)
    requires |p| > 0 && |r| > 0 && r[0] == '<'
    ensures var t := ReplaceAll(x, p, r, ci);
      (m <= |t| && forall k | 0 <= k < m :: t[k] != '<') ==> m <= |x| && t[..m] == x[..m]
    decreases |x|
  {
    var t := ReplaceAll(x, p, r, ci);
    if |x| < |p| {
    } else if StartsWith(x, p, ci) {
      if m > 0 {
        assert t[0] == '<';
      }
    } else if m > 0 {
      var t' := ReplaceAll(x[1..], p, r, ci);
      assert t == [x[0]] + t';
      ReplaceAllCopiesPrefix(x[1..], p, r, ci, m - 1);
      if m <= |t| && forall k | 0 <= k < m :: t[k] != '<' {
        assert forall k | 0 <= k < m - 1 :: t'[k] == t[k + 1];
        assert t[..m] == [x[0]] + t'[..m - 1];
        assert x[..m] == [x[0]] + x[1..][..m - 1];
      }
    }
  }

  /** A replacement followed by an output free of q contains no q. */
  lemma NoOccurrenceAfterReplacement(r: string, t: string, q: string, ci: bool, m: nat)
    requires TagShaped(r) && TagShaped(q) && !Occurs(t, q, ci)
    requires m < |q| && m < |r| && !CharEq(r[m], q[m], ci)
    ensures !Occurs(r + t, q, ci)
  {
    var out := r + t;
    forall i | 0 <= i <= |out| - |q| ensures !StartsWith(out[i..], q, ci) {
      if i == 0 {
        assert out[i..][m] == r[m];
      } else if i < |r| {
        assert out[i..][0] == r[i];
        CharEqLt(r[i], q[0], ci);
      } else {
        assert out[i..] == t[i - |r|..];
      }
    }
  }

  /** If the output of a copying step begins with the tag-shaped q, so did the subject. */
  lemma CopyStepStartsWith(s: string, p: string, r: string, q: string, ci: bool)
    requires |p| > 0 && TagShaped(r) && TagShaped(q) && |s| > 0
    ensures StartsWith([s[0]] + ReplaceAll(s[1..], p, r, ci), q, ci) ==> StartsWith(s, q, ci)
  {
    var t := ReplaceAll(s[1..], p, r, ci);
    var out := [s[0]] + t;
    if StartsWith(out, q, ci) {
      forall k | 0 <= k < |q| - 1 ensures t[k] != '<' {
        assert out[k + 1] == t[k];
        CharEqLt(out[k + 1], q[k + 1], ci);
      }
      ReplaceAllCopiesPrefix(s[1..], p, r, ci, |q| - 1);
      assert forall k | 1 <= k < |q| :: out[k] == t[..|q| - 1][k - 1];
      assert forall k | 1 <= k < |q| :: s[1..][..|q| - 1][k - 1] == s[k];
    }
  }

  /** A character copied in front of an output free of q yields no q, unless q started there in the subject. */
  lemma NoOccurrenceAfterCopy(s: string, p: string, r: string, q: string, ci: bool)
    requires |p| > 0 && TagShaped(r) && TagShaped(q) && |s| >= |p| && !StartsWith(s, p, ci)
    requires q == p || !Occurs(s, q, ci)
    requires !Occurs(ReplaceAll(s[1..], p, r, ci), q, ci)
    ensures !Occurs([s[0]] + ReplaceAll(s[1..], p, r, ci), q, ci)
  {
    var t := ReplaceAll(s[1..], p, r, ci);
    var out := [s[0]] + t;
    forall i | 0 <= i <= |out| - |q| ensures !StartsWith(out[i..], q, ci) {
      if i == 0 {
        CopyStepStartsWith(s, p, r, q, ci);
        assert s[0..] == s && out[0..] == out;
      } else {
        assert out[i..] == t[i - 1..];
      }
    }
  }

  /**
   * Replacing p by a tag-shaped r creates no occurrence of a tag-shaped q
   * that r does not begin with: q is absent afterwards if it was absent
   * before or if q is p itself.
   */
  lemma {:induction false} ReplaceAllNoNewOccurrence(s: string, p: string, r: string, q: string, ci: bool, m: nat)
    requires |p| > 0 && TagShaped(r) && TagShaped(q)
    requires q == p || !Occurs(s, q, ci)
    requires m < |q| && m < |r| && !CharEq(r[m], q[m], ci)
    ensures !Occurs(ReplaceAll(s, p, r, ci), q, ci)
    decreases |s|
  {
    if |s| < |p| {
    } else if StartsWith(s, p, ci) {
      var rest := s[|p|..];
      if q != p && Occurs(rest, q, ci) {
        OccursInTail(s, q, ci, |p|);
      }
      ReplaceAllNoNewOccurrence(rest, p, r, q, ci, m);
      NoOccurrenceAfterReplacement(r, ReplaceAll(rest, p, r, ci), q, ci, m);
    } else {
      if q != p && Occurs(s[1..], q, ci) {
        OccursInTail(s, q, ci, 1);
      }
      ReplaceAllNoNewOccurrence(s[1..], p, r, q, ci, m);
      NoOccurrenceAfterCopy(s, p, r, q, ci);
    }
  }

  function DigitChar(d: nat): char
    requires d < 10
  {
    "0123456789"[d]
  }

  predicate IsDigit(c: char) {
    '0' <= c <= '9'
  }

  function DigitValue(c: char): nat
    requires IsDigit(c)
  {
    c as int - '0' as int
  }

  predicate AllDigits(s: string) {
    forall k | 0 <= k < |s| :: IsDigit(s[k])
  }

  /** Decimal rendering of a natural number, as PHP's string conversion of an int. */
  function NatToString(n: nat): (r: string)
    ensures |r| > 0 && AllDigits(r)
    decreases n
  {
    if n < 10 then [DigitChar(n)] else NatToString(n / 10) + [DigitChar(n % 10)]
  }

  /** Reads a string of decimal digits as a number. */
  function DigitsValue(s: string): nat
    requires AllDigits(s)
  {
    if s == [] then 0 else DigitsValue(s[..|s| - 1]) * 10 + DigitValue(s[|s| - 1])
  }

  lemma {:induction false} NatToStringRoundTrip(n: nat)
    ensures DigitsValue(NatToString(n)) == n
    decreases n
  {
    var r := NatToString(n);
    if n < 10 {
      assert r == [DigitChar(n)];
    } else {
      NatToStringRoundTrip(n / 10);
      assert r[..|r| - 1] == NatToString(n / 10);
      assert r[|r| - 1] == DigitChar(n % 10);
    }
  }

  lemma NatToStringInjective(m: nat, n: nat)
    requires NatToString(m) == NatToString(n)
    ensures m == n
  {
    NatToStringRoundTrip(m);
    NatToStringRoundTrip(n);
  }

  /** Decimal rendering of an integer (a leading '-' when negative). */
  function IntToString(i: int): string {
    if i < 0 then "-" + NatToString(-i) else NatToString(i)
  }
}
