/**
 * The parts of PHP's parse_url() and pathinfo() that the plugin reads: the
 * host and the path of a URL, and the extension of a path.
 */
module Url {
  import opened PhpString

  /** Index of the first character of s that satisfies stop, or |s|. */
  function FindFirst(s: string, stop: char -> bool): (i: nat)
    ensures i <= |s| && forall k | 0 <= k < i :: !stop(s[k])
    ensures i < |s| ==> stop(s[i])
  {
    if s == [] || stop(s[0]) then 0 else 1 + FindFirst(s[1..], stop)
  }

  /** Index of the last occurrence of c in s, when there is one. */
  function FindLast(s: string, c: char): (i: int)
    ensures -1 <= i < |s|
    ensures i >= 0 ==> s[i] == c
    ensures forall k | i < k < |s| :: s[k] != c
  {
    if s == [] then -1
    else if s[|s| - 1] == c then |s| - 1
    else FindLast(s[..|s| - 1], c)
  }

  predicate IsSchemeChar(c: char) {
    ('a' <= c <= 'z') || ('A' <= c <= 'Z') || ('0' <= c <= '9') || c == '+' || c == '-' || c == '.'
  }

  predicate EndsAuthority(c: char) { c == '/' || c == '?' || c == '#' }

  predicate EndsPath(c: char) { c == '?' || c == '#' }

  /**
   * Where the authority of a URL starts: after "//" at the very start, or
   * after "scheme://"; -1 when the URL has no authority.
   */
  function AuthorityStart(u: string): (i: int)
    ensures i == -1 || 2 <= i <= |u|
  {
    if HasPrefix(u, "//") then 2
    else
      var c := FindFirst(u, (ch: char) => !IsSchemeChar(ch));
      if 0 < c && HasPrefix(u[c..], "://") then c + 3 else -1
  }

  /** The authority of the URL, "" when it has none. */
  function Authority(u: string): string {
    var a := AuthorityStart(u);
    if a < 0 then "" else u[a..][..FindFirst(u[a..], EndsAuthority)]
  }

  /** parse_url($u)['host']: the authority without user info and port ("" when absent). */
  function Host(u: string): (h: string)
    ensures forall k | 0 <= k < |h| :: h[k] != '@' && h[k] != ':' && h[k] != '/'
  {
    var auth := Authority(u);
    var at := FindLast(auth, '@');
    var hostPort := auth[at + 1..];
    hostPort[..FindFirst(hostPort, (ch: char) => ch == ':')]
  }

  /** parse_url($u, PHP_URL_PATH): what follows the authority, up to the query or fragment. */
  function Path(u: string): (p: string)
    ensures forall k | 0 <= k < |p| :: p[k] != '?' && p[k] != '#'
  {
    var a := AuthorityStart(u);
    var rest := if a < 0 then u else u[a..][FindFirst(u[a..], EndsAuthority)..];
    rest[..FindFirst(rest, EndsPath)]
  }

  /** basename(): the last path component, trailing slashes ignored. */
  function Basename(p: string): (b: string)
    ensures forall k | 0 <= k < |b| :: b[k] != '/'
    decreases |p|
  {
    if p != [] && p[|p| - 1] == '/' then Basename(p[..|p| - 1])
    else p[FindLast(p, '/') + 1..]
  }

  /** pathinfo()['extension']: what follows the last dot of the basename, if it has one. */
  function Extension(p: string): (e: string)
    ensures forall k | 0 <= k < |e| :: e[k] != '.' && e[k] != '/'
  {
    var b := Basename(p);
    var dot := FindLast(b, '.');
    if dot < 0 then ""
    else
      var e := b[dot + 1..];
      forall k | 0 <= k < |e|
        ensures e[k] != '.' && e[k] != '/'
      {
        assert e[k] == b[dot + 1 + k] && dot < dot + 1 + k < |b|;
      }
      e
  }
}
