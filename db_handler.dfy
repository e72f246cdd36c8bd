/**
 * The bookkeeping store of includes/db-handler.php: the import progress
 * transient, the Blogger-id to WordPress-id mappings kept in options and in
 * post and comment meta, and the bounded error log.
 */
module DbHandler {
  import opened Wrappers

  /** The progress array the import loops report. */
  datatype Progress = Progress(step: string, current: nat, total: nat, percentage: nat, message: string)

  /** An entry of bio_post_mappings. */
  datatype PostMapping = PostMapping(wpId: nat, bloggerUrl: string)

  /** The _bio_blogger_id and _bio_blogger_url meta of a post. */
  datatype PostMeta = PostMeta(bloggerId: string, bloggerUrl: string)

  /** An entry of bio_import_errors; time is current_time('mysql') at logging. */
  datatype ErrorEntry = ErrorEntry(message: string, context: string, time: string)

  const MaxErrors: nat := 100

  /** Everything the handler reads and writes. */
  datatype DbState = DbState(
    progress: Option<Progress>,
    postMappings: map<string, PostMapping>,
    postMeta: map<nat, PostMeta>,
    commentMappings: map<string, nat>,
    commentMeta: map<nat, string>,
    errors: seq<ErrorEntry>)

  /* ---------------- progress transient ---------------- */

  function UpdateImportProgress(s: DbState, p: Progress): DbState {
    s.(progress := Some(p))
  }

  function DeleteImportProgress(s: DbState): DbState {
    s.(progress := None)
  }

  /** get_import_progress: the stored progress, None for false. */
  function GetImportProgress(s: DbState): Option<Progress> {
    s.progress
  }

  lemma ProgressRoundTrip(s: DbState, p: Progress)
    ensures GetImportProgress(UpdateImportProgress(s, p)) == Some(p)
    ensures GetImportProgress(DeleteImportProgress(UpdateImportProgress(s, p))) == None
    ensures UpdateImportProgress(s, p).(progress := s.progress) == s
  {
  }

  /* ---------------- post and comment mappings ---------------- */

  /**
   * store_post_mapping: the post's two meta values and the options entry for
   * the Blogger id. update_post_meta stores nothing for object id 0 (the id
   * false stands for), while the options entry is written whatever the id.
   */
  function StorePostMapping(s: DbState, bloggerId: string, wpPostId: nat, bloggerUrl: string): DbState {
    s.(postMeta := if wpPostId != 0 then s.postMeta[wpPostId := PostMeta(bloggerId, bloggerUrl)] else s.postMeta,
       postMappings := s.postMappings[bloggerId := PostMapping(wpPostId, bloggerUrl)])
  }

  /** get_wp_post_id_from_blogger_id, options path: the stored WordPress id, None for false. */
  function WpPostIdFromBloggerId(s: DbState, bloggerId: string): (r: Option<nat>)
    ensures r.Some? <==> bloggerId in s.postMappings
  {
    if bloggerId in s.postMappings then Some(s.postMappings[bloggerId].wpId) else None
  }

  /** A stored mapping is found again; storing for one Blogger id leaves every other id's answer alone. */
  lemma PostMappingStoreLookup(s: DbState, b: string, w: nat, url: string, other: string)
    requires other != b
    ensures WpPostIdFromBloggerId(StorePostMapping(s, b, w, url), b) == Some(w)
    ensures WpPostIdFromBloggerId(StorePostMapping(s, b, w, url), other) == WpPostIdFromBloggerId(s, other)
    ensures StorePostMapping(s, b, w, url).commentMappings == s.commentMappings
    ensures w != 0 ==> StorePostMapping(s, b, w, url).postMeta == s.postMeta[w := PostMeta(b, url)]
    ensures w == 0 ==> StorePostMapping(s, b, w, url).postMeta == s.postMeta
  {
  }

  /** Storing twice for the same Blogger id: the second store wins in the options map. */
  lemma PostMappingOverwrite(s: DbState, b: string, w1: nat, u1: string, w2: nat, u2: string)
    ensures StorePostMapping(StorePostMapping(s, b, w1, u1), b, w2, u2).postMappings ==
            StorePostMapping(s, b, w2, u2).postMappings
  {
  }

  /** store_comment_mapping: the comment's meta value (none for id 0, as for posts) and the options entry. */
  function StoreCommentMapping(s: DbState, bloggerId: string, wpCommentId: nat): DbState {
    s.(commentMeta := if wpCommentId != 0 then s.commentMeta[wpCommentId := bloggerId] else s.commentMeta,
       commentMappings := s.commentMappings[bloggerId := wpCommentId])
  }

  /** get_wp_comment_id_from_blogger_id, options path. */
  function WpCommentIdFromBloggerId(s: DbState, bloggerId: string): (r: Option<nat>)
    ensures r.Some? <==> bloggerId in s.commentMappings
  {
    if bloggerId in s.commentMappings then Some(s.commentMappings[bloggerId]) else None
  }

  lemma CommentMappingStoreLookup(s: DbState, b: string, c: nat, other: string)
    requires other != b
    ensures WpCommentIdFromBloggerId(StoreCommentMapping(s, b, c), b) == Some(c)
    ensures WpCommentIdFromBloggerId(StoreCommentMapping(s, b, c), other) == WpCommentIdFromBloggerId(s, other)
    ensures StoreCommentMapping(s, b, c).postMappings == s.postMappings
    ensures c != 0 ==> StoreCommentMapping(s, b, c).commentMeta == s.commentMeta[c := b]
    ensures c == 0 ==> StoreCommentMapping(s, b, c).commentMeta == s.commentMeta
  {
  }

  /* ---------------- error log ---------------- */

  function Min(a: nat, b: nat): nat {
    if a < b then a else b
  }

  /** log_error: the entry is appended and only the last MaxErrors entries are kept. */
  function LogError(s: DbState, message: string, context: string, now: string): DbState {
    var errs := s.errors + [ErrorEntry(message, context, now)];
    s.(errors := if |errs| > MaxErrors then errs[|errs| - MaxErrors..] else errs)
  }

  /**
   * After log_error the log holds at most MaxErrors entries, the new one
   * last, preceded by the most recent of the old entries in their order.
   */
  lemma LogErrorKeepsLatest(s: DbState, message: string, context: string, now: string)
    ensures var r := LogError(s, message, context, now).errors;
      |r| == Min(|s.errors| + 1, MaxErrors) &&
      r[|r| - 1] == ErrorEntry(message, context, now) &&
      forall k | 0 <= k < |r| - 1 :: r[k] == s.errors[|s.errors| - (|r| - 1) + k]
    ensures LogError(s, message, context, now).(errors := s.errors) == s
  {
  }

  /** Below the limit nothing is dropped. */
  lemma LogErrorAppends(s: DbState, message: string, context: string, now: string)
    requires |s.errors| < MaxErrors
    ensures LogError(s, message, context, now).errors == s.errors + [ErrorEntry(message, context, now)]
  {
  }

  /** get_errors */
  function GetErrors(s: DbState): seq<ErrorEntry> {
    s.errors
  }

  /** clear_errors deletes the option, so get_errors falls back to the empty array. */
  function ClearErrors(s: DbState): DbState {
    s.(errors := [])
  }

  lemma ClearErrorsEmpties(s: DbState, message: string, context: string, now: string)
    ensures GetErrors(ClearErrors(s)) == []
    ensures GetErrors(LogError(ClearErrors(s), message, context, now)) == [ErrorEntry(message, context, now)]
  {
  }

  /** The options, meta tables and transient as mutable state. */
  class Database {
    var progress: Option<Progress>
    var postMappings: map<string, PostMapping>
    var postMeta: map<nat, PostMeta>
    var commentMappings: map<string, nat>
    var commentMeta: map<nat, string>
    var errors: seq<ErrorEntry>

    constructor()
      ensures Snapshot() == DbState(None, map[], map[], map[], map[], [])
    {
      progress := None;
      postMappings := map[];
      postMeta := map[];
      commentMappings := map[];
      commentMeta := map[];
      errors := [];
    }

    function Snapshot(): DbState
      reads this
    {
      DbState(progress, postMappings, postMeta, commentMappings, commentMeta, errors)
    }

    method UpdateImportProgressOp(p: Progress)
      modifies this
      ensures Snapshot() == UpdateImportProgress(old(Snapshot()), p)
    {
      progress := Some(p);
    }

    method DeleteImportProgressOp()
      modifies this
      ensures Snapshot() == DeleteImportProgress(old(Snapshot()))
    {
      progress := None;
    }

    method StorePostMappingOp(bloggerId: string, wpPostId: nat, bloggerUrl: string)
      modifies this
      ensures Snapshot() == StorePostMapping(old(Snapshot()), bloggerId, wpPostId, bloggerUrl)
    {
      if wpPostId != 0 {
        postMeta := postMeta[wpPostId := PostMeta(bloggerId, bloggerUrl)];
      }
      postMappings := postMappings[bloggerId := PostMapping(wpPostId, bloggerUrl)];
    }

    method StoreCommentMappingOp(bloggerId: string, wpCommentId: nat)
      modifies this
      ensures Snapshot() == StoreCommentMapping(old(Snapshot()), bloggerId, wpCommentId)
    {
      if wpCommentId != 0 {
        commentMeta := commentMeta[wpCommentId := bloggerId];
      }
      commentMappings := commentMappings[bloggerId := wpCommentId];
    }

    method LogErrorOp(message: string, context: string, now: string)
      modifies this
      ensures Snapshot() == LogError(old(Snapshot()), message, context, now)
    {
      var errs := errors + [ErrorEntry(message, context, now)];
      if |errs| > MaxErrors {
        errs := errs[|errs| - MaxErrors..];
      }
      errors := errs;
    }

    method ClearErrorsOp()
      modifies this
      ensures Snapshot() == ClearErrors(old(Snapshot()))
    {
      errors := [];
    }
  }
}
