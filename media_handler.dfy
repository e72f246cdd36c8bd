/**
 * The media importer (includes/media-handler.php): recognising Google image
 * hosts, rewriting their URLs, choosing a file extension from a content type
 * or from the first bytes of a file, and the two counting loops that import
 * the media of one post and of many posts.
 *
 * File contents are PHP byte strings, written here as strings with one
 * character per byte.
 */
module MediaHandler {
  import opened Wrappers
  import opened PhpString
  import opened PhpArray

  /* ---------------- is_google_url ---------------- */

  /** is_google_url: the five substring tests, as written. */
  predicate IsGoogleUrl(u: string) {
    Contains(u, "googleusercontent.com") || Contains(u, "blogspot.com") || Contains(u, "ggpht.com") ||
    Contains(u, "blogger.com") || Contains(u, "bp.blogspot.com")
  }

  /** The fifth test adds nothing: "bp.blogspot.com" already contains "blogspot.com". */
  lemma IsGoogleUrlDomains(u: string)
    ensures IsGoogleUrl(u) <==>
      Contains(u, "googleusercontent.com") || Contains(u, "blogspot.com") || Contains(u, "ggpht.com") ||
      Contains(u, "blogger.com")
  {
    if Contains(u, "bp.blogspot.com") {
      assert "bp.blogspot.com"[3..] == "blogspot.com";
      OccursWithin(u, "bp.blogspot.com", "blogspot.com", false, 3);
    }
  }

  /* ---------------- fix_google_image_url ---------------- */

  /** The length of the run of digits at the start of s. */
  function DigitRun(s: string): (n: nat)
    ensures n <= |s|
    ensures forall k | 0 <= k < n :: IsDigit(s[k])
    ensures n < |s| ==> !IsDigit(s[n])
  {
    if s != [] && IsDigit(s[0]) then 1 + DigitRun(s[1..]) else 0
  }

  /** The two size patterns: =s\d+(-c)? and =w\d+(-h\d+)?(-c)?. */
  datatype SizePattern = SizeParam | WidthParam

  /**
   * The length of the pattern's match at the very start of s, 0 when it does
   * not match there. Every \d+ takes all the digits and every optional group
   * is taken when it can be: an optional group never makes the match fail,
   * so this greedy first choice is the match PCRE reports.
   */
  function MatchLen(p: SizePattern, s: string): (n: nat)
    ensures n <= |s|
    ensures n > 0 ==> n >= 3 && s[0] == '=' && s[1] == (if p.SizeParam? then 's' else 'w') && IsDigit(s[2])
  {
    if |s| < 3 || s[0] != '=' || s[1] != (if p.SizeParam? then 's' else 'w') || !IsDigit(s[2]) then 0
    else
      var d := 2 + DigitRun(s[2..]);
      var h := if p.WidthParam? && HasPrefix(s[d..], "-h") && d + 2 < |s| && IsDigit(s[d + 2])
        then d + 2 + DigitRun(s[d + 2..]) else d;
      if HasPrefix(s[h..], "-c") then h + 2 else h
  }

  /** The pattern matches somewhere in s. */
  predicate HasMatch(p: SizePattern, s: string) {
    exists i | 0 <= i < |s| :: MatchLen(p, s[i..]) > 0
  }

  /** preg_replace($pattern, '', $s): every match, left to right and without overlap, is deleted. */
  function Strip(p: SizePattern, s: string): (r: string)
    ensures |r| <= |s|
    decreases |s|
  {
    if s == [] then []
    else
      var n := MatchLen(p, s);
      if n > 0 then Strip(p, s[n..]) else [s[0]] + Strip(p, s[1..])
  }

  /** Deleting the matches changes the string exactly when there is a match: it then gets shorter. */
  lemma {:induction false} StripChanges(p: SizePattern, s: string)
    ensures !HasMatch(p, s) ==> Strip(p, s) == s
    ensures HasMatch(p, s) ==> |Strip(p, s)| < |s|
    decreases |s|
  {
    if s != [] {
      assert s[0..] == s;
      var n := MatchLen(p, s);
      if n == 0 {
        assert HasMatch(p, s[1..]) <==> HasMatch(p, s) by {
          assert forall i | 0 <= i < |s[1..]| :: s[1..][i..] == s[i + 1..];
          if HasMatch(p, s) {
            var i :| 0 <= i < |s| && MatchLen(p, s[i..]) > 0;
            assert i > 0 && MatchLen(p, s[1..][i - 1..]) > 0;
          }
        }
        StripChanges(p, s[1..]);
      }
    }
  }

  const ImgMax := "imgmax=2000"

  /** The URL with both kinds of size parameter deleted, in the order fix_google_image_url deletes them. */
  function StrippedUrl(u: string): string {
    Strip(WidthParam, Strip(SizeParam, u))
  }

  /**
   * fix_google_image_url: a non-Google URL as it is; a Google URL with its
   * size parameters deleted and an imgmax parameter added when it has none.
   */
  function FixGoogleImageUrl(u: string): (r: string)
    ensures !IsGoogleUrl(u) ==> r == u
    ensures IsGoogleUrl(u) ==> Contains(r, "?") && Contains(r, "imgmax=")
    ensures IsGoogleUrl(u) ==> |r| <= |u| + 1 + |ImgMax|
    ensures IsGoogleUrl(u) ==> var s := StrippedUrl(u);
      (!Contains(s, "?") ==> r == s + "?" + ImgMax) &&
      (Contains(s, "?") && !Contains(s, "imgmax=") ==> r == s + "&" + ImgMax) &&
      (Contains(s, "?") && Contains(s, "imgmax=") ==> r == s)
  {
    if !IsGoogleUrl(u) then u
    else
      var s := Strip(WidthParam, Strip(SizeParam, u));
      assert StartsWith(("?" + ImgMax)[1..], "imgmax=", false);
      OccursAt("?" + ImgMax, "imgmax=", false, 1);
      assert StartsWith(("?" + ImgMax)[0..], "?", false);
      OccursAt("?" + ImgMax, "?", false, 0);
      assert StartsWith(("&" + ImgMax)[1..], "imgmax=", false);
      OccursAt("&" + ImgMax, "imgmax=", false, 1);
      if !Contains(s, "?") then
        OccursAppended(s, "?" + ImgMax, "?", false);
        OccursAppended(s, "?" + ImgMax, "imgmax=", false);
        s + ("?" + ImgMax)
      else if !Contains(s, "imgmax=") then
        OccursAppended(s, "&" + ImgMax, "imgmax=", false);
        assert Occurs(s + ("&" + ImgMax), "?", false) by {
          var i :| 0 <= i <= |s| - 1 && StartsWith(s[i..], "?", false);
          assert (s + ("&" + ImgMax))[i..][0] == s[i..][0];
          OccursAt(s + ("&" + ImgMax), "?", false, i);
        }
        s + ("&" + ImgMax)
      else s
  }

  /** A Google URL with no size parameter that already asks for imgmax in its query is left as it is. */
  lemma FixGoogleImageUrlStable(u: string)
    requires IsGoogleUrl(u) && !HasMatch(SizeParam, u) && !HasMatch(WidthParam, u)
    requires Contains(u, "?") && Contains(u, "imgmax=")
    ensures FixGoogleImageUrl(u) == u
  {
    StripChanges(SizeParam, u);
    StripChanges(WidthParam, u);
  }

  /** A size parameter on a Google URL is always deleted: the path part before the query gets shorter. */
  lemma FixGoogleImageUrlShortens(u: string)
    requires IsGoogleUrl(u) && HasMatch(SizeParam, u)
    ensures |Strip(WidthParam, Strip(SizeParam, u))| < |u|
  {
    StripChanges(SizeParam, u);
  }

  /* ---------------- get_extension_from_content_type ---------------- */

  /** get_extension_from_content_type: jpeg, png, gif and webp by name, any other image type by stripping "image/". */
  function ExtensionFromContentType(ct: string): (e: string)
    ensures Contains(ct, "image/jpeg") ==> e == "jpg"
    ensures !Contains(ct, "image/jpeg") && Contains(ct, "image/png") ==> e == "png"
    ensures !Contains(ct, "image/jpeg") && !Contains(ct, "image/png") && Contains(ct, "image/gif") ==> e == "gif"
    ensures (!Contains(ct, "image/jpeg") && !Contains(ct, "image/png") && !Contains(ct, "image/gif") &&
             Contains(ct, "image/webp")) ==> e == "webp"
    ensures (!Contains(ct, "image/jpeg") && !Contains(ct, "image/png") && !Contains(ct, "image/gif") &&
             !Contains(ct, "image/webp") && Contains(ct, "image/")) ==> e == ReplaceAll(ct, "image/", "", false)
    ensures !Contains(ct, "image/") ==> e == ""
    ensures Contains(ct, "image/") ==>
      e in {"jpg", "png", "gif", "webp"} || e == ReplaceAll(ct, "image/", "", false)
  {
    if Contains(ct, "image/jpeg") then
      assert StartsWith("image/jpeg"[0..], "image/", false);
      OccursWithin(ct, "image/jpeg", "image/", false, 0);
      "jpg"
    else if Contains(ct, "image/png") then
      assert StartsWith("image/png"[0..], "image/", false);
      OccursWithin(ct, "image/png", "image/", false, 0);
      "png"
    else if Contains(ct, "image/gif") then
      assert StartsWith("image/gif"[0..], "image/", false);
      OccursWithin(ct, "image/gif", "image/", false, 0);
      "gif"
    else if Contains(ct, "image/webp") then
      assert StartsWith("image/webp"[0..], "image/", false);
      OccursWithin(ct, "image/webp", "image/", false, 0);
      "webp"
    else if Contains(ct, "image/") then ReplaceAll(ct, "image/", "", false)
    else ""
  }

  /** Any other image subtype comes out as the content type minus "image/": an SVG becomes "svg+xml". */
  lemma ExtensionOfOtherImage(sub: string)
    requires !Contains(sub, "image/") && !Contains(sub, "/")
    requires !HasPrefix(sub, "jpeg") && !HasPrefix(sub, "png") && !HasPrefix(sub, "gif") && !HasPrefix(sub, "webp")
    ensures ExtensionFromContentType("image/" + sub) == sub
  {
    var ct := "image/" + sub;
    assert StartsWith(ct[0..], "image/", false);
    OccursAt(ct, "image/", false, 0);
    NoOtherImageType(sub, "jpeg");
    assert "image/" + "jpeg" == "image/jpeg";
    NoOtherImageType(sub, "png");
    assert "image/" + "png" == "image/png";
    NoOtherImageType(sub, "gif");
    assert "image/" + "gif" == "image/gif";
    NoOtherImageType(sub, "webp");
    assert "image/" + "webp" == "image/webp";
    ReplaceAllLeading("image/", sub, "", false);
  }

  /**
   * In "image/" + sub, where sub has no '/', the type "image/" + t can only
   * occur at the start, so it occurs exactly when sub begins with t.
   */
  lemma NoOtherImageType(sub: string, t: string)
    requires !Contains(sub, "/") && !HasPrefix(sub, t)
    ensures !Contains("image/" + sub, "image/" + t)
  {
    var ct := "image/" + sub;
    var p := "image/" + t;
    forall i | 0 <= i <= |ct| - |p| ensures !StartsWith(ct[i..], p, false) {
      if i == 0 {
        assert sub[..|t|] != t;
        var k :| 0 <= k < |t| && sub[k] != t[k];
        assert ct[i..][6 + k] == sub[k] && p[6 + k] == t[k];
      } else {
        assert ct[i..][5] == sub[i - 1] && p[5] == '/';
        assert !StartsWith(sub[i - 1..], "/", false);
      }
    }
  }

  /* ---------------- verify_and_fix_file_extension ---------------- */

  const JpegSignature: string := ['\U{FF}', '\U{D8}', '\U{FF}']

  /** The PNG file signature of section 3.1 of RFC 2083: 137 80 78 71 13 10 26 10. */
  const PngSignature: string := ['\U{89}', 'P', 'N', 'G', '\r', '\n', '\U{1A}', '\n']

  /** file_get_contents($path, false, null, 0, 12): the first twelve bytes of the file. */
  function FileHeader(content: string): (h: string)
    ensures h <= content && |h| == if |content| < 12 then |content| else 12
  {
    if |content| < 12 then content else content[..12]
  }

  /** The chain of signature tests on the header, as written with strpos. */
  function SniffExtension(header: string): (ext: string)
    ensures ext == ".png" <==> HasPrefix(header, PngSignature)
    ensures ext == ".gif" <==> HasPrefix(header, "GIF8")
    ensures ext == ".webp" <==> HasPrefix(header, "RIFF") && Contains(header, "WEBP")
    ensures ext == ".jpg" <==>
      !HasPrefix(header, PngSignature) && !HasPrefix(header, "GIF8") &&
      !(HasPrefix(header, "RIFF") && Contains(header, "WEBP"))
  {
    IndexOfZero(header, JpegSignature);
    IndexOfZero(header, PngSignature);
    IndexOfZero(header, "GIF8");
    IndexOfZero(header, "RIFF");
    IndexOfOccurs(header, "WEBP", false);
    if IndexOf(header, JpegSignature, false) == 0 then
      assert header[0] == '\U{FF}';
      ".jpg"
    else if IndexOf(header, PngSignature, false) == 0 then ".png"
    else if IndexOf(header, "GIF8", false) == 0 then ".gif"
    else if IndexOf(header, "RIFF", false) == 0 && IndexOf(header, "WEBP", false) >= 0 then ".webp"
    else ".jpg"
  }

  /**
   * A WebP file is a RIFF container: "RIFF", a four-byte size, then "WEBP",
   * which falls inside the twelve bytes read.
   */
  lemma SniffWebP(size: string, rest: string)
    requires |size| == 4
    ensures SniffExtension(FileHeader("RIFF" + size + "WEBP" + rest)) == ".webp"
  {
    var c := "RIFF" + size + "WEBP" + rest;
    var h := FileHeader(c);
    assert h == "RIFF" + size + "WEBP";
    assert h[..4] == "RIFF";
    assert StartsWith(h[8..], "WEBP", false);
    OccursAt(h, "WEBP", false, 8);
  }

  /**
   * verify_and_fix_file_extension, with the file system and PHP's image
   * functions as parameters: whether the file exists, the type that
   * wp_check_filetype gives the file name, the extension exif_imagetype
   * reports ("" when it is unavailable or fails) and the file's bytes. The
   * result is the path the file ends up at.
   */
  function VerifyAndFixFileExtension(filePath: string, fileExists: bool, fileType: string, exifExt: string,
                                     content: string): (r: Result<string>)
    ensures !fileExists <==> r == Err("file_not_found")
    ensures fileExists && Truthy(fileType) ==> r == Ok(filePath)
    ensures fileExists && !Truthy(fileType) && Truthy(exifExt) ==> r == Ok(filePath + "." + exifExt)
    ensures fileExists && !Truthy(fileType) && !Truthy(exifExt) ==>
      r.Ok? && |r.value| >= |filePath| && r.value[..|filePath|] == filePath &&
      r.value[|filePath|..] in {".jpg", ".png", ".gif", ".webp"}
  {
    if !fileExists then Err("file_not_found")
    else if Truthy(fileType) then Ok(filePath)
    else if Truthy(exifExt) then Ok(filePath + "." + exifExt)
    else
      var ext := SniffExtension(FileHeader(content));
      var r := filePath + ext;
      assert r[..|filePath|] == filePath && r[|filePath|..] == ext;
      Ok(r)
  }

  /* ---------------- import_post_media / import_all_media ---------------- */

  /** The WordPress calls the import loops make, as functions. */
  datatype MediaEnv = MediaEnv(
    /** bio_is_valid_url (filter_var with FILTER_VALIDATE_URL) */
    validUrl: string -> bool,
    /** preg_match_all of the <img ... src="..."> pattern over post content: the captured sources */
    imgSrcs: string -> seq<string>,
    /** the download and sideload of import_media for a (rewritten) URL: the new attachment id, or None on an error */
    fetch: string -> Option<nat>,
    /** wp_get_attachment_url */
    attachmentUrl: nat -> string)

  /**
   * The part of the WordPress database the loops use: the `_bio_original_url`
   * meta of attachments (URL to attachment id) and the content of posts.
   */
  datatype Store = Store(originalUrls: map<string, nat>, posts: map<nat, string>)

  /** What happened to one URL. */
  datatype Outcome = Skipped(id: nat) | Imported(id: nat) | Failed

  /** The results array of import_post_media; the early returns carry no url_mapping, written []. */
  datatype MediaResults = MediaResults(total: nat, success: nat, failed: nat, skipped: nat,
                                       urlMapping: seq<(string, string)>)

  /**
   * One URL: already in the library, counted skipped; otherwise imported,
   * and import_media records the rewritten URL it downloaded under the new id.
   */
  function StepUrl(env: MediaEnv, u: string, lib: map<string, nat>): (res: (Outcome, map<string, nat>))
    ensures u in lib ==> res == (Skipped(lib[u]), lib)
    ensures lib.Keys <= res.1.Keys
  {
    if u in lib then (Skipped(lib[u]), lib)
    else
      var fixed := FixGoogleImageUrl(u);
      match env.fetch(fixed)
      case None => (Failed, lib)
      case Some(id) => (Imported(id), lib[fixed := id])
  }

  /** The outcomes of the loop over urls from the library lib, and the library afterwards. */
  function RunUrls(env: MediaEnv, urls: seq<string>, lib: map<string, nat>): (res: (seq<Outcome>, map<string, nat>))
    ensures |res.0| == |urls|
    ensures lib.Keys <= res.1.Keys
    decreases |urls|
  {
    if urls == [] then ([], lib)
    else
      var (os, l) := RunUrls(env, urls[..|urls| - 1], lib);
      var (o, l') := StepUrl(env, urls[|urls| - 1], l);
      (os + [o], l')
  }

  function CountSkipped(os: seq<Outcome>): nat {
    if os == [] then 0 else CountSkipped(os[..|os| - 1]) + (if os[|os| - 1].Skipped? then 1 else 0)
  }

  function CountImported(os: seq<Outcome>): nat {
    if os == [] then 0 else CountImported(os[..|os| - 1]) + (if os[|os| - 1].Imported? then 1 else 0)
  }

  function CountFailed(os: seq<Outcome>): nat {
    if os == [] then 0 else CountFailed(os[..|os| - 1]) + (if os[|os| - 1].Failed? then 1 else 0)
  }

  /** url_mapping: every URL that did not fail, with the URL of its attachment, in loop order. */
  function Mapping(env: MediaEnv, urls: seq<string>, os: seq<Outcome>): seq<(string, string)>
    requires |urls| == |os|
  {
    if os == [] then []
    else
      var rest := Mapping(env, urls[..|urls| - 1], os[..|os| - 1]);
      var o := os[|os| - 1];
      if o.Failed? then rest else rest + [(urls[|urls| - 1], env.attachmentUrl(o.id))]
  }

  /** One more outcome adds to exactly its own bucket, and to url_mapping unless it failed. */
  lemma UrlCountsSnoc(env: MediaEnv, urls: seq<string>, os: seq<Outcome>, u: string, o: Outcome)
    requires |urls| == |os|
    ensures CountImported(os + [o]) == CountImported(os) + (if o.Imported? then 1 else 0)
    ensures CountFailed(os + [o]) == CountFailed(os) + (if o.Failed? then 1 else 0)
    ensures CountSkipped(os + [o]) == CountSkipped(os) + (if o.Skipped? then 1 else 0)
    ensures Mapping(env, urls + [u], os + [o]) ==
            Mapping(env, urls, os) + (if o.Failed? then [] else [(u, env.attachmentUrl(o.id))])
  {
    assert (os + [o])[..|os|] == os;
    assert (urls + [u])[..|urls|] == urls;
  }

  /** Each outcome falls in exactly one bucket. */
  lemma {:induction false} OutcomesPartition(os: seq<Outcome>)
    ensures CountSkipped(os) + CountImported(os) + CountFailed(os) == |os|
  {
    if os != [] {
      OutcomesPartition(os[..|os| - 1]);
    }
  }

  /** url_mapping has one entry per skipped or imported URL, and each entry is such a URL with its attachment's URL. */
  lemma {:induction false} MappingShape(env: MediaEnv, urls: seq<string>, os: seq<Outcome>)
    requires |urls| == |os|
    ensures |Mapping(env, urls, os)| == CountSkipped(os) + CountImported(os)
    ensures forall e | e in Mapping(env, urls, os) ::
      exists k | 0 <= k < |urls| :: !os[k].Failed? && e == (urls[k], env.attachmentUrl(os[k].id))
  {
    if os != [] {
      var n := |os| - 1;
      MappingShape(env, urls[..n], os[..n]);
      forall e | e in Mapping(env, urls[..n], os[..n])
        ensures exists k | 0 <= k < |urls| :: !os[k].Failed? && e == (urls[k], env.attachmentUrl(os[k].id))
      {
        var k :| 0 <= k < n && !os[..n][k].Failed? && e == (urls[..n][k], env.attachmentUrl(os[..n][k].id));
        assert os[..n][k] == os[k] && urls[..n][k] == urls[k];
      }
    }
  }

  /** Every URL that did not fail appears in url_mapping with its attachment's URL. */
  lemma {:induction false} MappingComplete(env: MediaEnv, urls: seq<string>, os: seq<Outcome>, k: nat)
    requires |urls| == |os| && k < |os| && !os[k].Failed?
    ensures (urls[k], env.attachmentUrl(os[k].id)) in Mapping(env, urls, os)
  {
    var n := |os| - 1;
    if k < n {
      assert os[..n][k] == os[k] && urls[..n][k] == urls[k];
      MappingComplete(env, urls[..n], os[..n], k);
    }
  }

  /** The library only grows along the loop, so a URL already in it is skipped wherever it appears. */
  lemma {:induction false} KnownUrlSkipped(env: MediaEnv, urls: seq<string>, lib: map<string, nat>, k: nat)
    requires k < |urls| && urls[k] in lib
    ensures RunUrls(env, urls, lib).0[k].Skipped?
  {
    var n := |urls| - 1;
    if k < n {
      KnownUrlSkipped(env, urls[..n], lib, k);
      assert urls[..n][k] == urls[k];
    } else {
      var before := RunUrls(env, urls[..n], lib).1;
      assert urls[k] in before;
    }
  }

  /** The results of the loop over urls. */
  function Tally(env: MediaEnv, urls: seq<string>, os: seq<Outcome>): (r: MediaResults)
    requires |urls| == |os|
  {
    MediaResults(|urls|, CountImported(os), CountFailed(os), CountSkipped(os), Mapping(env, urls, os))
  }

  /** The content update: every old URL replaced by its new URL, one str_replace per entry, in mapping order. */
  function ReplaceUrls(content: string, mapping: seq<(string, string)>): string {
    if mapping == [] then content
    else
      var last := mapping[|mapping| - 1];
      ReplaceAll(ReplaceUrls(content, mapping[..|mapping| - 1]), last.0, last.1, false)
  }

  /** Content in which no old URL occurs is written back unchanged. */
  lemma {:induction false} ReplaceUrlsAbsent(content: string, mapping: seq<(string, string)>)
    requires forall e | e in mapping :: !Contains(content, e.0)
    ensures ReplaceUrls(content, mapping) == content
  {
    if mapping != [] {
      var last := mapping[|mapping| - 1];
      assert forall e | e in mapping[..|mapping| - 1] :: e in mapping;
      ReplaceUrlsAbsent(content, mapping[..|mapping| - 1]);
      ReplaceAllAbsent(content, last.0, last.1, false);
    }
  }

  /** array_filter with bio_is_valid_url, keeping order. */
  function FilterValid(env: MediaEnv, urls: seq<string>): (r: seq<string>)
    ensures forall u :: u in r <==> u in urls && env.validUrl(u)
  {
    if urls == [] then []
    else
      var rest := FilterValid(env, urls[..|urls| - 1]);
      var u := urls[|urls| - 1];
      assert urls == urls[..|urls| - 1] + [u];
      if env.validUrl(u) then rest + [u] else rest
  }

  /** The URLs import_post_media works through: the given ones, or the post's image sources, unique and valid. */
  function CandidateUrls(env: MediaEnv, postId: nat, urls: seq<string>, st: Store): seq<string>
    requires urls == [] ==> postId in st.posts
  {
    FilterValid(env, Unique(if urls == [] then env.imgSrcs(st.posts[postId]) else urls))
  }

  const NoResults := MediaResults(0, 0, 0, 0, [])

  /** import_post_media: the results and the store afterwards. */
  function PostMedia(env: MediaEnv, postId: nat, urls: seq<string>, updateContent: bool, st: Store): (MediaResults, Store) {
    if postId == 0 || (urls == [] && postId !in st.posts) then (NoResults, st)
    else
      var cand := CandidateUrls(env, postId, urls, st);
      var (os, lib) := RunUrls(env, cand, st.originalUrls);
      var r := Tally(env, cand, os);
      var posts := if updateContent && r.urlMapping != [] && postId in st.posts
        then st.posts[postId := ReplaceUrls(st.posts[postId], r.urlMapping)] else st.posts;
      (r, Store(lib, posts))
  }

  /** Every candidate URL lands in exactly one bucket, and url_mapping has one entry per skipped or imported URL. */
  lemma PostMediaCounts(env: MediaEnv, postId: nat, urls: seq<string>, updateContent: bool, st: Store)
    ensures var r := PostMedia(env, postId, urls, updateContent, st).0;
      r.success + r.failed + r.skipped == r.total && |r.urlMapping| == r.success + r.skipped
    ensures postId != 0 && (urls != [] || postId in st.posts) ==>
      PostMedia(env, postId, urls, updateContent, st).0.total == |CandidateUrls(env, postId, urls, st)|
  {
    if postId != 0 && (urls != [] || postId in st.posts) {
      var cand := CandidateUrls(env, postId, urls, st);
      var os := RunUrls(env, cand, st.originalUrls).0;
      OutcomesPartition(os);
      MappingShape(env, cand, os);
    }
  }

  /** A candidate URL already recorded in the library is counted skipped and is not downloaded again. */
  lemma PostMediaSkipsKnown(env: MediaEnv, postId: nat, urls: seq<string>, st: Store, k: nat)
    requires postId != 0 && (urls != [] || postId in st.posts)
    requires k < |CandidateUrls(env, postId, urls, st)| && CandidateUrls(env, postId, urls, st)[k] in st.originalUrls
    ensures RunUrls(env, CandidateUrls(env, postId, urls, st), st.originalUrls).0[k].Skipped?
  {
    KnownUrlSkipped(env, CandidateUrls(env, postId, urls, st), st.originalUrls, k);
  }

  /**
   * The candidate list has no repeats, and holds exactly the valid URLs among
   * its source: the URLs given, or the image sources of the post's content.
   */
  lemma CandidateUrlsUnique(env: MediaEnv, postId: nat, urls: seq<string>, st: Store)
    requires urls == [] ==> postId in st.posts
    ensures NoDup(CandidateUrls(env, postId, urls, st))
    ensures var src := if urls == [] then env.imgSrcs(st.posts[postId]) else urls;
      forall u :: u in CandidateUrls(env, postId, urls, st) <==> u in src && env.validUrl(u)
  {
    var src := if urls == [] then env.imgSrcs(st.posts[postId]) else urls;
    var d := Unique(src);
    FilterValidKeepsOrder(env, d, src);
    OrderImpliesNoDup(FilterValid(env, d), src);
  }

  lemma {:induction false} FilterValidKeepsOrder(env: MediaEnv, d: seq<string>, s: seq<string>)
    requires InFirstOccurrenceOrder(d, s)
    ensures InFirstOccurrenceOrder(FilterValid(env, d), s)
  {
    if d != [] {
      var init := d[..|d| - 1];
      var x := d[|d| - 1];
      OrderInit(d, s);
      FilterValidKeepsOrder(env, init, s);
      var f := FilterValid(env, init);
      if env.validUrl(x) {
        forall k | 0 <= k < |f| ensures FirstIndex(s, f[k]) < FirstIndex(s, x) {
          assert f[k] in init;
          var i := FirstIndex(init, f[k]);
          assert d[i] == f[k];
        }
        OrderSnoc(f, x, s);
      }
    }
  }

  /** The overall results of import_all_media. */
  datatype Totals = Totals(total: nat, success: nat, failed: nat, skipped: nat)

  function AddResults(t: Totals, r: MediaResults): Totals {
    Totals(t.total + r.total, t.success + r.success, t.failed + r.failed, t.skipped + r.skipped)
  }

  /** import_all_media over (post id, URLs) pairs in map order: the summed results and the store afterwards. */
  function AllMedia(env: MediaEnv, postMediaMap: seq<(nat, seq<string>)>, st: Store): (Totals, Store)
    decreases |postMediaMap|
  {
    if postMediaMap == [] then (Totals(0, 0, 0, 0), st)
    else
      var (t, s) := AllMedia(env, postMediaMap[..|postMediaMap| - 1], st);
      var (postId, urls) := postMediaMap[|postMediaMap| - 1];
      var (r, s') := PostMedia(env, postId, urls, true, s);
      (AddResults(t, r), s')
  }

  /** The totals over all posts balance as each post's do. */
  lemma {:induction false} AllMediaCounts(env: MediaEnv, postMediaMap: seq<(nat, seq<string>)>, st: Store)
    ensures var t := AllMedia(env, postMediaMap, st).0; t.success + t.failed + t.skipped == t.total
    decreases |postMediaMap|
  {
    if postMediaMap != [] {
      var n := |postMediaMap| - 1;
      AllMediaCounts(env, postMediaMap[..n], st);
      var (postId, urls) := postMediaMap[n];
      PostMediaCounts(env, postId, urls, true, AllMedia(env, postMediaMap[..n], st).1);
    }
  }

  /** The media library and post table as mutable state, updated by the two import loops. */
  class MediaLibrary {
    var originalUrls: map<string, nat>
    var posts: map<nat, string>

    constructor(originalUrls: map<string, nat>, posts: map<nat, string>)
      ensures this.originalUrls == originalUrls && this.posts == posts
    {
      this.originalUrls := originalUrls;
      this.posts := posts;
    }

    function Snapshot(): Store
      reads this
    {
      Store(originalUrls, posts)
    }

    /** One URL of the loop: skipped when the library knows it, otherwise handed to import_media. */
    method ImportUrl(env: MediaEnv, u: string) returns (o: Outcome)
      modifies this
      ensures (o, originalUrls) == StepUrl(env, u, old(originalUrls))
      ensures posts == old(posts)
    {
      if u in originalUrls {
        return Skipped(originalUrls[u]);
      }
      var fixed := FixGoogleImageUrl(u);
      var fetched := env.fetch(fixed);
      if fetched.None? {
        return Failed;
      }
      originalUrls := originalUrls[fixed := fetched.value];
      o := Imported(fetched.value);
    }

    /** The content rewrite: one str_replace per url_mapping entry, then the post is saved. */
    method RewriteContent(postId: nat, mapping: seq<(string, string)>)
      requires postId in posts
      modifies this
      ensures posts == old(posts)[postId := ReplaceUrls(old(posts)[postId], mapping)]
      ensures originalUrls == old(originalUrls)
    {
      var content := posts[postId];
      var j := 0;
      while j < |mapping|
        invariant 0 <= j <= |mapping|
        invariant content == ReplaceUrls(posts[postId], mapping[..j])
      {
        assert mapping[..j + 1][..j] == mapping[..j];
        content := ReplaceAll(content, mapping[j].0, mapping[j].1, false);
        j := j + 1;
      }
      assert mapping[..j] == mapping;
      posts := posts[postId := content];
    }

    /** One turn of the import_post_media loop: the URL's outcome is tallied and, unless it failed, mapped. */
    method UrlStep(env: MediaEnv, cand: seq<string>, i: nat, ghost lib: map<string, nat>, ghost os: seq<Outcome>,
                   success: nat, failed: nat, skipped: nat, mapping: seq<(string, string)>)
      returns (ghost os': seq<Outcome>, success': nat, failed': nat, skipped': nat, mapping': seq<(string, string)>)
      requires i < |cand| && (os, originalUrls) == RunUrls(env, cand[..i], lib)
      requires success == CountImported(os) && failed == CountFailed(os) && skipped == CountSkipped(os)
      requires mapping == Mapping(env, cand[..i], os)
      modifies this
      ensures (os', originalUrls) == RunUrls(env, cand[..i + 1], lib)
      ensures success' == CountImported(os') && failed' == CountFailed(os') && skipped' == CountSkipped(os')
      ensures mapping' == Mapping(env, cand[..i + 1], os')
      ensures posts == old(posts)
    {
      assert cand[..i + 1][..i] == cand[..i];
      var o := ImportUrl(env, cand[i]);
      os' := os + [o];
      UrlCountsSnoc(env, cand[..i], os, cand[i], o);
      assert cand[..i + 1] == cand[..i] + [cand[i]];
      success', failed', skipped', mapping' := success, failed, skipped, mapping;
      match o {
        case Skipped(id) =>
          mapping' := mapping + [(cand[i], env.attachmentUrl(id))];
          skipped' := skipped + 1;
        case Imported(id) =>
          mapping' := mapping + [(cand[i], env.attachmentUrl(id))];
          success' := success + 1;
        case Failed =>
          failed' := failed + 1;
      }
    }

    /** import_post_media: one pass over the candidate URLs, then the content rewrite. */
    method ImportPostMedia(env: MediaEnv, postId: nat, urls: seq<string>, updateContent: bool)
      returns (r: MediaResults)
      modifies this
      ensures (r, Snapshot()) == PostMedia(env, postId, urls, updateContent, old(Snapshot()))
    {
      if postId == 0 || (urls == [] && postId !in posts) {
        return NoResults;
      }
      ghost var st := Snapshot();
      var cand := CandidateUrls(env, postId, urls, Snapshot());
      var success, failed, skipped := 0, 0, 0;
      var mapping: seq<(string, string)> := [];
      ghost var os: seq<Outcome> := [];
      var i := 0;
      while i < |cand|
        invariant 0 <= i <= |cand|
        invariant (os, originalUrls) == RunUrls(env, cand[..i], st.originalUrls)
        invariant posts == st.posts
        invariant success == CountImported(os) && failed == CountFailed(os) && skipped == CountSkipped(os)
        invariant mapping == Mapping(env, cand[..i], os)
      {
        os, success, failed, skipped, mapping := UrlStep(env, cand, i, st.originalUrls, os, success, failed, skipped, mapping);
        i := i + 1;
      }
      assert cand[..i] == cand;
      r := MediaResults(|cand|, success, failed, skipped, mapping);
      if updateContent && mapping != [] && postId in posts {
        RewriteContent(postId, mapping);
      }
    }

    /** import_all_media: import_post_media for every post, with the results summed. */
    method ImportAllMedia(env: MediaEnv, postMediaMap: seq<(nat, seq<string>)>) returns (t: Totals)
      modifies this
      ensures (t, Snapshot()) == AllMedia(env, postMediaMap, old(Snapshot()))
    {
      ghost var st := Snapshot();
      t := Totals(0, 0, 0, 0);
      var i := 0;
      while i < |postMediaMap|
        invariant 0 <= i <= |postMediaMap|
        invariant (t, Snapshot()) == AllMedia(env, postMediaMap[..i], st)
      {
        assert postMediaMap[..i + 1][..i] == postMediaMap[..i];
        var (postId, urls) := postMediaMap[i];
        var r := ImportPostMedia(env, postId, urls, true);
        t := AddResults(t, r);
        i := i + 1;
      }
      assert postMediaMap[..i] == postMediaMap;
    }
  }
}
