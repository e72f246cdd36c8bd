/**
 * General helpers (includes/utils.php): the repair of "uXXXX" sequences,
 * unique slugs, the upload size limit and the extension of a URL.
 */
module Utils {
  import opened PhpString
  import Url

  /* ---------------- bio_fix_encoding ---------------- */

  predicate IsHex(c: char) {
    ('0' <= c <= '9') || ('a' <= c <= 'f') || ('A' <= c <= 'F')
  }

  function HexValue(c: char): (v: nat)
    requires IsHex(c)
    ensures v < 16
  {
    if '0' <= c <= '9' then c as int - '0' as int
    else if 'a' <= c <= 'f' then c as int - 'a' as int + 10
    else c as int - 'A' as int + 10
  }

  /** The pattern u[0-9a-fA-F]{4} matches at the start of s. */
  predicate EscapeAt(s: string) {
    |s| >= 5 && s[0] == 'u' && IsHex(s[1]) && IsHex(s[2]) && IsHex(s[3]) && IsHex(s[4])
  }

  /** The pattern matches somewhere in s (the preg_match guard). */
  predicate HasEscape(s: string) {
    exists i | 0 <= i < |s| :: EscapeAt(s[i..])
  }

  /** The UCS-2 code unit written by the four hex digits after the 'u'. */
  function CodeUnit(s: string): (u: nat)
    requires EscapeAt(s)
    ensures u < 0x1_0000
  {
    ((HexValue(s[1]) * 16 + HexValue(s[2])) * 16 + HexValue(s[3])) * 16 + HexValue(s[4])
  }

  /**
   * mb_convert_encoding of one UCS-2BE code unit to UTF-8: the character
   * itself; a lone surrogate half is not a character and becomes '?'.
   */
  function CodeUnitChar(u: nat): char
    requires u < 0x1_0000
  {
    if 0xD800 <= u < 0xE000 then '?' else u as char
  }

  /** The preg_replace_callback pass: every match, left to right and without overlap, becomes one character. */
  function ReplaceEscapes(s: string): (r: string)
    ensures |r| <= |s|
    decreases |s|
  {
    if s == [] then []
    else if EscapeAt(s) then [CodeUnitChar(CodeUnit(s))] + ReplaceEscapes(s[5..])
    else [s[0]] + ReplaceEscapes(s[1..])
  }

  lemma {:induction false} ReplaceEscapesAbsent(s: string)
    requires !HasEscape(s)
    ensures ReplaceEscapes(s) == s
    decreases |s|
  {
    if s != [] {
      assert s[0..] == s;
      assert !HasEscape(s[1..]) by {
        forall i | 0 <= i < |s[1..]| ensures !EscapeAt(s[1..][i..]) {
          assert s[1..][i..] == s[i + 1..];
        }
      }
      ReplaceEscapesAbsent(s[1..]);
    }
  }

  /** A PHP value handed to bio_fix_encoding: a string or anything else. */
  datatype Mixed = MString(s: string) | MOther(repr: string)

  /** bio_fix_encoding on a string. */
  function FixEncoding(s: string): (r: string)
    ensures !HasEscape(s) ==> r == s
  {
    if HasEscape(s) then ReplaceEscapes(s)
    else s
  }

  /** bio_fix_encoding on any value: only strings are touched. */
  function FixEncodingValue(v: Mixed): (r: Mixed)
    ensures v.MOther? ==> r == v
    ensures v.MString? ==> r == MString(FixEncoding(v.s))
  {
    match v
    case MString(s) => MString(FixEncoding(s))
    case MOther(_) => v
  }

  /** The guard is only a shortcut: the replacement pass leaves an escape-free string alone anyway. */
  lemma FixEncodingIsReplaceEscapes(s: string)
    ensures FixEncoding(s) == ReplaceEscapes(s)
  {
    if !HasEscape(s) {
      ReplaceEscapesAbsent(s);
    }
  }

  /** The lower-case hex digit of a value below 16. */
  function HexDigit(d: nat): (c: char)
    requires d < 16
    ensures IsHex(c) && HexValue(c) == d
  {
    if d < 10 then ('0' as int + d) as char else ('a' as int + d - 10) as char
  }

  /** "u" followed by the four lower-case hex digits of a code unit. */
  function Escape(c: char): (e: string)
    requires (c as int) < 0x1_0000
    ensures EscapeAt(e) && |e| == 5
  {
    var n := c as int;
    var n1 := n / 16;
    var n2 := n1 / 16;
    ['u', HexDigit(n2 / 16), HexDigit(n2 % 16), HexDigit(n1 % 16), HexDigit(n % 16)]
  }

  lemma EscapeDecodes(c: char)
    requires (c as int) < 0x1_0000
    ensures CodeUnit(Escape(c)) == c as int
    ensures CodeUnitChar(CodeUnit(Escape(c))) == c
  {
    var n := c as int;
    var n1 := n / 16;
    var n2 := n1 / 16;
    assert n2 / 16 * 16 + n2 % 16 == n2;
    assert n2 * 16 + n1 % 16 == n1;
    assert n1 * 16 + n % 16 == n;
  }

  /** Every character of a Basic Multilingual Plane string written as its escape. */
  function EscapeAll(w: string): (r: string)
    requires forall k | 0 <= k < |w| :: (w[k] as int) < 0x1_0000
    ensures |r| == 5 * |w|
  {
    if w == [] then [] else Escape(w[0]) + EscapeAll(w[1..])
  }

  /** Round trip: repairing the escapes of a BMP string gives the string back. */
  lemma {:induction false} FixEncodingRoundTrip(w: string)
    requires forall k | 0 <= k < |w| :: (w[k] as int) < 0x1_0000
    ensures ReplaceEscapes(EscapeAll(w)) == w
  {
    if w != [] {
      var e := EscapeAll(w);
      var rest := EscapeAll(w[1..]);
      assert e == Escape(w[0]) + rest;
      assert e[..5] == Escape(w[0]) && e[5..] == rest;
      EscapeDecodes(w[0]);
      assert EscapeAt(e) && CodeUnit(e) == CodeUnit(Escape(w[0]));
      FixEncodingRoundTrip(w[1..]);
    }
  }

  /* ---------------- bio_generate_unique_slug ---------------- */

  /**
   * The slug lookup: get_var returns the matching post_name, which the code
   * tests for truthiness, so a stored "" or "0" counts as free.
   */
  predicate SlugTaken(taken: set<string>, s: string) {
    s in taken && Truthy(s)
  }

  function SuffixedSlug(base: string, k: nat): string {
    base + "-" + NatToString(k)
  }

  lemma SuffixedSlugInjective(base: string, j: nat, k: nat)
    requires SuffixedSlug(base, j) == SuffixedSlug(base, k)
    ensures j == k
  {
    var n := |base| + 1;
    assert SuffixedSlug(base, j)[n..] == NatToString(j);
    assert SuffixedSlug(base, k)[n..] == NatToString(k);
    NatToStringInjective(j, k);
  }

  lemma SubsetCardinality<T>(a: set<T>, b: set<T>)
    requires a <= b
    ensures |a| <= |b|
  {
    if a != {} {
      var x :| x in a;
      SubsetCardinality(a - {x}, b - {x});
    }
  }

  /**
   * The search of the do-while loop from suffix k on: the first base-j with
   * j >= k that is free. It never needs to go past |taken| + 2 (see
   * SlugSearchFree); the guard on k only makes termination evident.
   */
  function SlugSearch(base: string, taken: set<string>, k: nat): string
    decreases |taken| + 2 - k
  {
    var s := SuffixedSlug(base, k);
    if !SlugTaken(taken, s) || k > |taken| + 1 then s else SlugSearch(base, taken, k + 1)
  }

  /** The slug bio_generate_unique_slug settles on. */
  function UniqueSlug(title: string, sanitizeTitle: string -> string, taken: set<string>): string {
    var base := sanitizeTitle(FixEncoding(title));
    if !SlugTaken(taken, base) then base else SlugSearch(base, taken, 2)
  }

  /** The suffixed slugs base-2 ... base-k are k - 1 distinct strings. */
  lemma {:induction false} SuffixedSlugsCount(base: string, k: nat)
    requires k >= 1
    ensures |set j: nat | 2 <= j <= k :: SuffixedSlug(base, j)| == k - 1
  {
    var sk := set j: nat | 2 <= j <= k :: SuffixedSlug(base, j);
    if k >= 2 {
      var prev := set j: nat | 2 <= j <= k - 1 :: SuffixedSlug(base, j);
      SuffixedSlugsCount(base, k - 1);
      assert sk == prev + {SuffixedSlug(base, k)};
      assert SuffixedSlug(base, k) !in prev by {
        if SuffixedSlug(base, k) in prev {
          var j: nat :| 2 <= j <= k - 1 && SuffixedSlug(base, j) == SuffixedSlug(base, k);
          SuffixedSlugInjective(base, j, k);
        }
      }
    } else {
      assert sk == {};
    }
  }

  /** The search always ends on a free slug: there are too few taken slugs to fill base-2 ... base-(|taken| + 2). */
  lemma {:induction false} SlugSearchFree(base: string, taken: set<string>, k: nat)
    requires k >= 2
    requires forall j: nat | 2 <= j < k :: SlugTaken(taken, SuffixedSlug(base, j))
    ensures !SlugTaken(taken, SlugSearch(base, taken, k))
    ensures exists j: nat | j >= k ::
      (SlugSearch(base, taken, k) == SuffixedSlug(base, j) &&
       forall i: nat | k <= i < j :: SlugTaken(taken, SuffixedSlug(base, i)))
    decreases |taken| + 2 - k
  {
    var s := SuffixedSlug(base, k);
    if SlugTaken(taken, s) {
      if k > |taken| + 1 {
        var all := set j: nat | 2 <= j <= k :: SuffixedSlug(base, j);
        SuffixedSlugsCount(base, k);
        assert all <= taken;
        SubsetCardinality(all, taken);
        assert false;
      } else {
        SlugSearchFree(base, taken, k + 1);
        var j: nat :| j >= k + 1 &&
          (SlugSearch(base, taken, k + 1) == SuffixedSlug(base, j) &&
           forall i: nat | k + 1 <= i < j :: SlugTaken(taken, SuffixedSlug(base, i)));
        assert SlugSearch(base, taken, k) == SuffixedSlug(base, j);
      }
    } else {
      assert SlugSearch(base, taken, k) == SuffixedSlug(base, k);
    }
  }

  /** The slug bio_generate_unique_slug settles on is never one already used by a post of the type. */
  lemma UniqueSlugFree(title: string, sanitizeTitle: string -> string, taken: set<string>)
    ensures !SlugTaken(taken, UniqueSlug(title, sanitizeTitle, taken))
  {
    var base := sanitizeTitle(FixEncoding(title));
    if SlugTaken(taken, base) {
      SlugSearchFree(base, taken, 2);
    }
  }

  /**
   * bio_generate_unique_slug, with the posts of the requested type given by
   * the slugs they use and sanitize_title as an oracle: the base slug when it
   * is free, otherwise base-k for the smallest k >= 2 that is free.
   */
  method GenerateUniqueSlug(title: string, sanitizeTitle: string -> string, taken: set<string>)
    returns (slug: string)
    ensures slug == UniqueSlug(title, sanitizeTitle, taken)
    ensures var base := sanitizeTitle(FixEncoding(title));
      (!SlugTaken(taken, base) ==> slug == base) &&
      (SlugTaken(taken, base) ==>
        exists k: nat | k >= 2 :: slug == SuffixedSlug(base, k) && !SlugTaken(taken, slug) &&
          forall j: nat | 2 <= j < k :: SlugTaken(taken, SuffixedSlug(base, j)))
  {
    var base := sanitizeTitle(FixEncoding(title));
    if !SlugTaken(taken, base) {
      return base;
    }
    var suffix: nat := 2;
    slug := SuffixedSlug(base, suffix);
    ghost var tried: set<string> := {};
    suffix := suffix + 1;
    while SlugTaken(taken, slug)
      invariant suffix >= 3 && slug == SuffixedSlug(base, suffix - 1)
      invariant SlugSearch(base, taken, suffix - 1) == SlugSearch(base, taken, 2)
      invariant forall j: nat | 2 <= j < suffix - 1 :: SlugTaken(taken, SuffixedSlug(base, j))
      invariant tried <= taken && |tried| == suffix - 3
      invariant forall t | t in tried :: exists j: nat | 2 <= j < suffix - 1 :: t == SuffixedSlug(base, j)
      decreases |taken| - |tried|
    {
      assert slug !in tried by {
        if slug in tried {
          var j: nat :| 2 <= j < suffix - 1 && slug == SuffixedSlug(base, j);
          SuffixedSlugInjective(base, j, suffix - 1);
        }
      }
      tried := tried + {slug};
      SubsetCardinality(tried, taken);
      slug := SuffixedSlug(base, suffix);
      suffix := suffix + 1;
    }
  }

  /* ---------------- bio_get_max_upload_size ---------------- */

  /** PHP's (int) cast of a string: optional leading blanks and sign, then the leading digits; 0 if none. */
  function IntCast(s: string): int {
    var t := LeadingBlanks(s);
    if t != [] && t[0] == '-' then 0 - DigitsValue(LeadingDigits(t[1..]))
    else if t != [] && t[0] == '+' then DigitsValue(LeadingDigits(t[1..]))
    else DigitsValue(LeadingDigits(t))
  }

  function LeadingBlanks(s: string): string {
    if s != [] && (s[0] == ' ' || s[0] == '\t' || s[0] == '\n' || s[0] == '\r' || s[0] == '\U{000B}' || s[0] == '\U{000C}')
    then LeadingBlanks(s[1..]) else s
  }

  function LeadingDigits(s: string): (d: string)
    ensures AllDigits(d) && d <= s
  {
    if s != [] && IsDigit(s[0]) then [s[0]] + LeadingDigits(s[1..]) else []
  }

  const Mebibyte := 1024 * 1024

  function Min3(a: int, b: int, c: int): (m: int)
    ensures m <= a && m <= b && m <= c
    ensures m == a || m == b || m == c
  {
    if a <= b && a <= c then a else if b <= c then b else c
  }

  /**
   * bio_get_max_upload_size, given the three ini strings: each is read as a
   * number of megabytes and the smallest wins.
   */
  function MaxUploadSize(uploadMaxFilesize: string, postMaxSize: string, memoryLimit: string): (r: int)
    ensures r <= IntCast(uploadMaxFilesize) * Mebibyte
    ensures r <= IntCast(postMaxSize) * Mebibyte
    ensures r <= IntCast(memoryLimit) * Mebibyte
    ensures r == IntCast(uploadMaxFilesize) * Mebibyte || r == IntCast(postMaxSize) * Mebibyte ||
            r == IntCast(memoryLimit) * Mebibyte
  {
    Min3(IntCast(uploadMaxFilesize) * Mebibyte, IntCast(postMaxSize) * Mebibyte, IntCast(memoryLimit) * Mebibyte)
  }

  /* ---------------- bio_get_url_extension ---------------- */

  /** bio_get_url_extension: the lower-cased extension of the URL's path, or "". */
  function UrlExtension(u: string): (e: string)
    ensures |e| == |Url.Extension(Url.Path(u))|
    ensures forall k | 0 <= k < |e| :: e[k] == Lower(Url.Extension(Url.Path(u))[k])
    ensures forall k | 0 <= k < |e| :: !('A' <= e[k] <= 'Z') && e[k] != '.' && e[k] != '/'
  {
    LowerStr(Url.Extension(Url.Path(u)))
  }
}
