/**
 * Comment import (includes/comment-importer.php): each Blogger comment is
 * inserted once, its Blogger id mapped to the new WordPress comment id, a
 * second pass links replies to their parents, and import_all_comments runs
 * this per post after grouping the comments by their Blogger post id.
 */
module CommentImporter {
  import opened Wrappers
  import opened PhpString
  import opened PhpArray
  import Utils
  import opened XmlParser
  import opened DbHandler

  /** The fields of the wp_insert_comment array that vary (approved is always 1, type ''). */
  datatype WpComment = WpComment(
    postId: nat, author: string, authorEmail: string, authorUrl: string,
    content: string, date: string, parent: nat)

  /**
   * bio_format_date (DateTime parsing and formatting), and wp_insert_comment
   * as execute_with_retry returns it: the new id, or None for false or a WP_Error.
   */
  datatype CommentEnv = CommentEnv(formatDate: string -> string, insertComment: WpComment -> Option<nat>)

  /** The mapping store and the WordPress comments table. */
  datatype CommentState = CommentState(db: DbState, table: map<nat, WpComment>)

  /** What happened to one comment: already mapped, newly inserted, or the insert failed. */
  datatype CommentOutcome = Existing(id: nat) | Inserted(id: nat) | InsertFailed

  datatype CommentResults = CommentResults(total: nat, success: nat, failed: nat, skipped: nat)

  /** get_wp_comment_id_from_blogger_id as the `if ($existing_comment_id)` test reads it: a stored id other than 0. */
  function ExistingComment(db: DbState, bloggerId: string): Option<nat> {
    var w := WpCommentIdFromBloggerId(db, bloggerId);
    if w.Some? && w.value != 0 then w else None
  }

  /** The comment import_comment inserts: encoding repaired in author name and content, no parent yet. */
  function NewComment(env: CommentEnv, c: CommentData, wpPostId: nat): WpComment {
    WpComment(wpPostId, Utils.FixEncoding(c.authorName), c.authorEmail, c.authorUrl,
              Utils.FixEncoding(c.content), env.formatDate(c.published), 0)
  }

  /** import_comment: the outcome and the state afterwards. */
  function ImportCommentSpec(env: CommentEnv, c: CommentData, wpPostId: nat, st: CommentState)
    : (CommentOutcome, CommentState)
  {
    var e := ExistingComment(st.db, c.id);
    if e.Some? then (Existing(e.value), st)
    else
      var wc := NewComment(env, c, wpPostId);
      var w := env.insertComment(wc);
      if w.None? || w.value == 0 then (InsertFailed, st)
      else (Inserted(w.value), CommentState(StoreCommentMapping(st.db, c.id, w.value), st.table[w.value := wc]))
  }

  /**
   * A mapped comment gives its stored id and changes nothing; otherwise the
   * comment is inserted and, only when that gives an id other than 0, both
   * the mapping and the new comment are stored; a failed insert changes nothing.
   */
  lemma ImportCommentFacts(env: CommentEnv, c: CommentData, wpPostId: nat, st: CommentState)
    ensures var res := ImportCommentSpec(env, c, wpPostId, st);
      (ExistingComment(st.db, c.id).Some? ==> res == (Existing(ExistingComment(st.db, c.id).value), st)) &&
      (res.0.Existing? ==> c.id in st.db.commentMappings && st.db.commentMappings[c.id] == res.0.id != 0) &&
      (res.0.InsertFailed? ==> res.1 == st) &&
      (res.0.Inserted? ==>
        res.0.id != 0 && ExistingComment(st.db, c.id).None? &&
        ExistingComment(res.1.db, c.id) == Some(res.0.id) &&
        res.1.table == st.table[res.0.id := NewComment(env, c, wpPostId)])
  {
  }

  /** Importing one comment never changes the answer for another Blogger id that is already mapped. */
  lemma ImportCommentKeepsKnown(env: CommentEnv, c: CommentData, wpPostId: nat, st: CommentState, x: string, w: nat)
    requires ExistingComment(st.db, x) == Some(w)
    ensures ExistingComment(ImportCommentSpec(env, c, wpPostId, st).1.db, x) == Some(w)
  {
  }

  /* ---------------- first pass ---------------- */

  /** The first pass of import_comments: the outcomes, comment_id_map and the state afterwards. */
  datatype Pass = Pass(outcomes: seq<CommentOutcome>, idMap: map<string, nat>, st: CommentState)

  /** One turn of the first loop: import_comment, then comment_id_map gets the id unless the insert failed. */
  function PassStep(env: CommentEnv, c: CommentData, wpPostId: nat, p: Pass): (q: Pass)
    ensures |q.outcomes| == |p.outcomes| + 1
  {
    var step := ImportCommentSpec(env, c, wpPostId, p.st);
    Pass(p.outcomes + [step.0], if step.0.InsertFailed? then p.idMap else p.idMap[c.id := step.0.id], step.1)
  }

  function FirstPass(env: CommentEnv, cs: seq<CommentData>, wpPostId: nat, st: CommentState): (p: Pass)
    ensures |p.outcomes| == |cs|
    decreases |cs|
  {
    if cs == [] then Pass([], map[], st)
    else PassStep(env, cs[|cs| - 1], wpPostId, FirstPass(env, cs[..|cs| - 1], wpPostId, st))
  }

  /** One more comment: the pass over cs[..i + 1] is the pass over cs[..i] followed by one import_comment. */
  lemma FirstPassSnoc(env: CommentEnv, cs: seq<CommentData>, wpPostId: nat, st: CommentState, i: nat)
    requires i < |cs|
    ensures FirstPass(env, cs[..i + 1], wpPostId, st) == PassStep(env, cs[i], wpPostId, FirstPass(env, cs[..i], wpPostId, st))
  {
    var t := cs[..i + 1];
    assert t[..|t| - 1] == cs[..i] && t[|t| - 1] == cs[i];
  }

  /** The outcome of comment k is decided by the state the comments before it left. */
  lemma {:induction false} FirstPassAt(env: CommentEnv, cs: seq<CommentData>, wpPostId: nat, st: CommentState, k: nat)
    requires k < |cs|
    ensures FirstPass(env, cs, wpPostId, st).outcomes[k] ==
            ImportCommentSpec(env, cs[k], wpPostId, FirstPass(env, cs[..k], wpPostId, st).st).0
  {
    var n := |cs| - 1;
    if k < n {
      FirstPassAt(env, cs[..n], wpPostId, st, k);
      assert cs[..n][..k] == cs[..k] && cs[..n][k] == cs[k];
    } else {
      assert cs[..n] == cs[..k];
    }
  }

  /** A Blogger id mapped after the first i comments stays mapped to the same id to the end of the pass. */
  lemma {:induction false} KnownPersists(env: CommentEnv, cs: seq<CommentData>, wpPostId: nat, st: CommentState,
                                         i: nat, n: nat, x: string, w: nat)
    requires i <= n <= |cs|
    requires ExistingComment(FirstPass(env, cs[..i], wpPostId, st).st.db, x) == Some(w)
    ensures ExistingComment(FirstPass(env, cs[..n], wpPostId, st).st.db, x) == Some(w)
    decreases n
  {
    if n > i {
      KnownPersists(env, cs, wpPostId, st, i, n - 1, x, w);
      FirstPassSnoc(env, cs, wpPostId, st, n - 1);
      ImportCommentKeepsKnown(env, cs[n - 1], wpPostId, FirstPass(env, cs[..n - 1], wpPostId, st).st, x, w);
    }
  }

  /** A comment whose Blogger id was already mapped before the run is skipped with its stored id, wherever it appears. */
  lemma KnownCommentSkipped(env: CommentEnv, cs: seq<CommentData>, wpPostId: nat, st: CommentState, k: nat)
    requires k < |cs| && ExistingComment(st.db, cs[k].id).Some?
    ensures FirstPass(env, cs, wpPostId, st).outcomes[k] == Existing(ExistingComment(st.db, cs[k].id).value)
  {
    assert cs[..0] == [];
    KnownPersists(env, cs, wpPostId, st, 0, k, cs[k].id, ExistingComment(st.db, cs[k].id).value);
    FirstPassAt(env, cs, wpPostId, st, k);
  }

  /** A comment listed twice is inserted at most once: once its first copy is imported, later copies are skipped. */
  lemma DuplicateSkipped(env: CommentEnv, cs: seq<CommentData>, wpPostId: nat, st: CommentState, j: nat, k: nat)
    requires j < k < |cs| && cs[j].id == cs[k].id
    requires !FirstPass(env, cs, wpPostId, st).outcomes[j].InsertFailed?
    ensures FirstPass(env, cs, wpPostId, st).outcomes[k] == Existing(FirstPass(env, cs, wpPostId, st).outcomes[j].id)
  {
    var p := FirstPass(env, cs, wpPostId, st);
    FirstPassAt(env, cs, wpPostId, st, j);
    FirstPassSnoc(env, cs, wpPostId, st, j);
    ImportCommentFacts(env, cs[j], wpPostId, FirstPass(env, cs[..j], wpPostId, st).st);
    var after := FirstPass(env, cs[..j + 1], wpPostId, st).st;
    assert ExistingComment(after.db, cs[j].id) == Some(p.outcomes[j].id);
    KnownPersists(env, cs, wpPostId, st, j + 1, k, cs[j].id, p.outcomes[j].id);
    FirstPassAt(env, cs, wpPostId, st, k);
  }

  /** comment_id_map agrees with the stored mappings: every id in it is mapped, to the same WordPress id. */
  lemma {:induction false} IdMapStored(env: CommentEnv, cs: seq<CommentData>, wpPostId: nat, st: CommentState, x: string)
    requires x in FirstPass(env, cs, wpPostId, st).idMap
    ensures var p := FirstPass(env, cs, wpPostId, st); ExistingComment(p.st.db, x) == Some(p.idMap[x])
  {
    var n := |cs| - 1;
    var prev := FirstPass(env, cs[..n], wpPostId, st);
    var c := cs[n];
    var step := ImportCommentSpec(env, c, wpPostId, prev.st);
    ImportCommentFacts(env, c, wpPostId, prev.st);
    if c.id != x || step.0.InsertFailed? {
      IdMapStored(env, cs[..n], wpPostId, st, x);
      ImportCommentKeepsKnown(env, c, wpPostId, prev.st, x, prev.idMap[x]);
    }
  }

  /** comment_id_map holds exactly the Blogger ids of the comments that were skipped or imported. */
  lemma {:induction false} IdMapKeys(env: CommentEnv, cs: seq<CommentData>, wpPostId: nat, st: CommentState, x: string)
    ensures var p := FirstPass(env, cs, wpPostId, st);
      x in p.idMap <==> exists k | 0 <= k < |cs| :: cs[k].id == x && !p.outcomes[k].InsertFailed?
  {
    if cs != [] {
      var n := |cs| - 1;
      var p := FirstPass(env, cs, wpPostId, st);
      var prev := FirstPass(env, cs[..n], wpPostId, st);
      IdMapKeys(env, cs[..n], wpPostId, st, x);
      assert forall k | 0 <= k < n :: cs[..n][k] == cs[k] && prev.outcomes[k] == p.outcomes[k];
      if x in p.idMap && !(x in prev.idMap) {
        assert cs[n].id == x && !p.outcomes[n].InsertFailed?;
      }
    }
  }

  function CountSkipped(os: seq<CommentOutcome>): nat {
    if os == [] then 0 else CountSkipped(os[..|os| - 1]) + (if os[|os| - 1].Existing? then 1 else 0)
  }

  function CountSuccess(os: seq<CommentOutcome>): nat {
    if os == [] then 0 else CountSuccess(os[..|os| - 1]) + (if os[|os| - 1].Inserted? then 1 else 0)
  }

  function CountFailed(os: seq<CommentOutcome>): nat {
    if os == [] then 0 else CountFailed(os[..|os| - 1]) + (if os[|os| - 1].InsertFailed? then 1 else 0)
  }

  /** Every comment is counted exactly once, as a success, a failure or a skip. */
  lemma {:induction false} OutcomesPartition(os: seq<CommentOutcome>)
    ensures CountSuccess(os) + CountFailed(os) + CountSkipped(os) == |os|
  {
    if os != [] {
      OutcomesPartition(os[..|os| - 1]);
    }
  }

  /* ---------------- second pass ---------------- */

  /** empty($parent_id) is false: a parent id other than 0, "" and "0". */
  predicate HasParent(c: CommentData) {
    c.parentId.Some? && Truthy(c.parentId.value)
  }

  /** The wp_update_comment the second pass makes for one comment: its WordPress id and its parent's. */
  function ParentUpdate(c: CommentData, idMap: map<string, nat>): (u: Option<(nat, nat)>)
    ensures u.Some? <==> c.id in idMap && HasParent(c) && c.parentId.value in idMap
    ensures u.Some? ==> u.value == (idMap[c.id], idMap[c.parentId.value])
  {
    if c.id in idMap && HasParent(c) && c.parentId.value in idMap then Some((idMap[c.id], idMap[c.parentId.value]))
    else None
  }

  /** wp_update_comment: the parent of an existing comment changes, an unknown id changes nothing. */
  function SetParent(table: map<nat, WpComment>, u: Option<(nat, nat)>): (t: map<nat, WpComment>)
    ensures t.Keys == table.Keys
  {
    match u
    case None => table
    case Some((w, p)) => if w in table then table[w := table[w].(parent := p)] else table
  }

  /** The second pass of import_comments over the comments table. */
  function Relink(cs: seq<CommentData>, idMap: map<string, nat>, table: map<nat, WpComment>): (t: map<nat, WpComment>)
    ensures t.Keys == table.Keys
    decreases |cs|
  {
    if cs == [] then table
    else SetParent(Relink(cs[..|cs| - 1], idMap, table), ParentUpdate(cs[|cs| - 1], idMap))
  }

  lemma RelinkSnoc(cs: seq<CommentData>, idMap: map<string, nat>, table: map<nat, WpComment>, i: nat)
    requires i < |cs|
    ensures Relink(cs[..i + 1], idMap, table) == SetParent(Relink(cs[..i], idMap, table), ParentUpdate(cs[i], idMap))
  {
    var t := cs[..i + 1];
    assert t[..|t| - 1] == cs[..i] && t[|t| - 1] == cs[i];
  }

  /** Does comment c's update in the second pass target WordPress comment w? */
  predicate Targets(c: CommentData, idMap: map<string, nat>, w: nat) {
    var u := ParentUpdate(c, idMap);
    u.Some? && u.value.0 == w
  }

  /** The second pass only ever changes parents: every other field of every comment is kept. */
  lemma {:induction false} RelinkKeepsFields(cs: seq<CommentData>, idMap: map<string, nat>, table: map<nat, WpComment>, w: nat)
    requires w in table
    ensures Relink(cs, idMap, table)[w] == table[w].(parent := Relink(cs, idMap, table)[w].parent)
  {
    if cs != [] {
      RelinkKeepsFields(cs[..|cs| - 1], idMap, table, w);
    }
  }

  /** A comment no update targets keeps its parent. */
  lemma {:induction false} RelinkUntouched(cs: seq<CommentData>, idMap: map<string, nat>, table: map<nat, WpComment>, w: nat)
    requires w in table
    requires forall j | 0 <= j < |cs| :: !Targets(cs[j], idMap, w)
    ensures Relink(cs, idMap, table)[w] == table[w]
  {
    if cs != [] {
      var n := |cs| - 1;
      assert !Targets(cs[n], idMap, w);
      assert forall j | 0 <= j < n :: cs[..n][j] == cs[j];
      RelinkUntouched(cs[..n], idMap, table, w);
    }
  }

  /** The last comment whose update targets w decides w's parent: its own parent's WordPress id. */
  lemma {:induction false} RelinkLast(cs: seq<CommentData>, idMap: map<string, nat>, table: map<nat, WpComment>, w: nat, k: nat)
    requires w in table && k < |cs| && Targets(cs[k], idMap, w)
    requires forall j | k < j < |cs| :: !Targets(cs[j], idMap, w)
    ensures Relink(cs, idMap, table)[w].parent == idMap[cs[k].parentId.value]
  {
    var n := |cs| - 1;
    if k < n {
      assert !Targets(cs[n], idMap, w);
      assert forall j | k < j < n :: cs[..n][j] == cs[j];
      assert cs[..n][k] == cs[k];
      RelinkLast(cs[..n], idMap, table, w, k);
    }
  }

  /** import_comments: the counts and the state after both passes. */
  function ImportCommentsSpec(env: CommentEnv, cs: seq<CommentData>, wpPostId: nat, st: CommentState)
    : (CommentResults, CommentState)
  {
    var p := FirstPass(env, cs, wpPostId, st);
    (CommentResults(|cs|, CountSuccess(p.outcomes), CountFailed(p.outcomes), CountSkipped(p.outcomes)),
     p.st.(table := Relink(cs, p.idMap, p.st.table)))
  }

  /** Every comment is counted once: total is the number of comments and success + failed + skipped == total. */
  lemma ImportCommentsCounts(env: CommentEnv, cs: seq<CommentData>, wpPostId: nat, st: CommentState)
    ensures var r := ImportCommentsSpec(env, cs, wpPostId, st).0;
      r.total == |cs| && r.success + r.failed + r.skipped == r.total
  {
    OutcomesPartition(FirstPass(env, cs, wpPostId, st).outcomes);
  }

  /* ---------------- grouping by post ---------------- */

  /** The Blogger post id of every comment, in order. */
  function PostIds(cs: seq<CommentData>): (r: seq<string>)
    ensures |r| == |cs|
    ensures forall i | 0 <= i < |cs| :: r[i] == cs[i].postId
  {
    if cs == [] then [] else PostIds(cs[..|cs| - 1]) + [cs[|cs| - 1].postId]
  }

  /** The comments of one Blogger post, in their original order. */
  function WithPost(cs: seq<CommentData>, k: string): (r: seq<CommentData>)
    ensures |r| <= |cs|
    ensures forall i | 0 <= i < |r| :: r[i].postId == k
  {
    if cs == [] then []
    else
      var c := cs[|cs| - 1];
      WithPost(cs[..|cs| - 1], k) + (if c.postId == k then [c] else [])
  }

  lemma WithPostSnoc(cs: seq<CommentData>, c: CommentData, k: string)
    ensures WithPost(cs + [c], k) == WithPost(cs, k) + (if c.postId == k then [c] else [])
  {
    assert (cs + [c])[..|cs|] == cs;
  }

  lemma WithPostPrefix(cs: seq<CommentData>, i: nat, k: string)
    requires i < |cs|
    ensures WithPost(cs[..i + 1], k) == WithPost(cs[..i], k) + (if cs[i].postId == k then [cs[i]] else [])
  {
    var t := cs[..i + 1];
    assert t[..|t| - 1] == cs[..i] && t[|t| - 1] == cs[i];
  }

  lemma {:induction false} WithPostAbsent(cs: seq<CommentData>, k: string)
    requires k !in PostIds(cs)
    ensures WithPost(cs, k) == []
  {
    if cs != [] {
      var n := |cs| - 1;
      assert PostIds(cs)[n] == cs[n].postId;
      assert PostIds(cs[..n]) == PostIds(cs)[..n];
      WithPostAbsent(cs[..n], k);
    }
  }

  /** The total size of the groups of the given keys. */
  function SumSizes(cs: seq<CommentData>, keys: seq<string>): nat {
    if keys == [] then 0 else SumSizes(cs, keys[..|keys| - 1]) + |WithPost(cs, keys[|keys| - 1])|
  }

  lemma {:induction false} SumSizesSnoc(cs: seq<CommentData>, c: CommentData, keys: seq<string>)
    requires NoDup(keys)
    ensures SumSizes(cs + [c], keys) == SumSizes(cs, keys) + (if c.postId in keys then 1 else 0)
  {
    if keys != [] {
      var n := |keys| - 1;
      var init := keys[..n];
      assert keys == init + [keys[n]];
      assert NoDup(init);
      SumSizesSnoc(cs, c, init);
      WithPostSnoc(cs, c, keys[n]);
      assert c.postId == keys[n] ==> c.postId !in init;
    }
  }

  /** Grouping loses and duplicates nothing: the groups of the distinct post ids add up to all the comments. */
  lemma {:induction false} GroupsPartition(cs: seq<CommentData>)
    ensures SumSizes(cs, Unique(PostIds(cs))) == |cs|
  {
    if cs != [] {
      var n := |cs| - 1;
      var init := cs[..n];
      var c := cs[n];
      assert cs == init + [c];
      GroupsPartition(init);
      var ids := PostIds(cs);
      assert ids[..n] == PostIds(init);
      var u := Unique(PostIds(init));
      OrderImpliesNoDup(u, PostIds(init));
      SumSizesSnoc(init, c, u);
      if c.postId !in u {
        assert Unique(ids) == u + [c.postId];
        assert (u + [c.postId])[..|u|] == u;
        WithPostAbsent(init, c.postId);
        WithPostSnoc(init, c, c.postId);
      } else {
        assert Unique(ids) == u;
      }
    }
  }

  /* ---------------- import_all_comments ---------------- */

  datatype Totals = Totals(success: nat, failed: nat, skipped: nat)

  /** The WordPress post of a Blogger post id: the given mapping first, then the stored one; 0 for none. */
  function PostTarget(postMapping: map<string, nat>, db: DbState, k: string): (w: nat)
    ensures k in postMapping ==> w == postMapping[k]
    ensures k !in postMapping && k in db.postMappings ==> w == db.postMappings[k].wpId
    ensures k !in postMapping && k !in db.postMappings ==> w == 0
  {
    if k in postMapping then postMapping[k]
    else match WpPostIdFromBloggerId(db, k)
      case Some(w) => w
      case None => 0
  }

  /** One post of import_all_comments: an unknown post fails all its comments, a known one imports them. */
  function GroupStep(env: CommentEnv, cs: seq<CommentData>, k: string, postMapping: map<string, nat>, acc: (Totals, CommentState))
    : (Totals, CommentState)
  {
    var t := acc.0;
    var group := WithPost(cs, k);
    var wp := PostTarget(postMapping, acc.1.db, k);
    if wp == 0 then (t.(failed := t.failed + |group|), acc.1)
    else
      var r := ImportCommentsSpec(env, group, wp, acc.1);
      (Totals(t.success + r.0.success, t.failed + r.0.failed, t.skipped + r.0.skipped), r.1)
  }

  /** The loop of import_all_comments over the given post ids. */
  function ImportGroups(env: CommentEnv, cs: seq<CommentData>, keys: seq<string>, postMapping: map<string, nat>, st: CommentState)
    : (Totals, CommentState)
    decreases |keys|
  {
    if keys == [] then (Totals(0, 0, 0), st)
    else GroupStep(env, cs, keys[|keys| - 1], postMapping, ImportGroups(env, cs, keys[..|keys| - 1], postMapping, st))
  }

  lemma ImportGroupsSnoc(env: CommentEnv, cs: seq<CommentData>, keys: seq<string>, postMapping: map<string, nat>, st: CommentState, i: nat)
    requires i < |keys|
    ensures ImportGroups(env, cs, keys[..i + 1], postMapping, st) ==
            GroupStep(env, cs, keys[i], postMapping, ImportGroups(env, cs, keys[..i], postMapping, st))
  {
    var s := keys[..i + 1];
    assert s[..|s| - 1] == keys[..i] && s[|s| - 1] == keys[i];
  }

  /** import_all_comments: the results and the state afterwards. */
  function ImportAllSpec(env: CommentEnv, cs: seq<CommentData>, postMapping: map<string, nat>, st: CommentState)
    : (CommentResults, CommentState)
  {
    var (t, st') := ImportGroups(env, cs, GroupKeys(cs), postMapping, st);
    (CommentResults(|cs|, t.success, t.failed, t.skipped), st')
  }

  lemma {:induction false} ImportGroupsCounts(env: CommentEnv, cs: seq<CommentData>, keys: seq<string>, postMapping: map<string, nat>, st: CommentState)
    ensures var t := ImportGroups(env, cs, keys, postMapping, st).0; t.success + t.failed + t.skipped == SumSizes(cs, keys)
  {
    if keys != [] {
      var n := |keys| - 1;
      ImportGroupsCounts(env, cs, keys[..n], postMapping, st);
      var st1 := ImportGroups(env, cs, keys[..n], postMapping, st).1;
      assert keys[..n] == keys[..|keys| - 1];
      var wp := PostTarget(postMapping, st1.db, keys[n]);
      if wp != 0 {
        ImportCommentsCounts(env, WithPost(cs, keys[n]), wp, st1);
      }
    }
  }

  /** Over all posts, every comment is counted once: success + failed + skipped == total. */
  lemma ImportAllCounts(env: CommentEnv, cs: seq<CommentData>, postMapping: map<string, nat>, st: CommentState)
    ensures var r := ImportAllSpec(env, cs, postMapping, st).0;
      r.total == |cs| && r.success + r.failed + r.skipped == |cs|
  {
    ImportGroupsCounts(env, cs, GroupKeys(cs), postMapping, st);
    GroupKeysUnique(cs);
    GroupsPartition(cs);
  }

  /** The mapping store and comments table as mutable state. */
  class CommentStore {
    var db: DbState
    var table: map<nat, WpComment>

    constructor(db: DbState, table: map<nat, WpComment>)
      ensures this.db == db && this.table == table
    {
      this.db := db;
      this.table := table;
    }

    function Snapshot(): CommentState
      reads this
    {
      CommentState(db, table)
    }

    /** import_comment */
    method ImportComment(env: CommentEnv, c: CommentData, wpPostId: nat) returns (o: CommentOutcome)
      modifies this
      ensures (o, Snapshot()) == ImportCommentSpec(env, c, wpPostId, old(Snapshot()))
    {
      var existing := ExistingComment(db, c.id);
      if existing.Some? {
        return Existing(existing.value);
      }
      var wc := NewComment(env, c, wpPostId);
      var commentId := env.insertComment(wc);
      if commentId.None? || commentId.value == 0 {
        return InsertFailed;
      }
      table := table[commentId.value := wc];
      db := StoreCommentMapping(db, c.id, commentId.value);
      o := Inserted(commentId.value);
    }

    /** The first loop of import_comments: skip what is mapped, import the rest, fill comment_id_map. */
    method FirstPassLoop(env: CommentEnv, cs: seq<CommentData>, wpPostId: nat)
      returns (idMap: map<string, nat>, success: nat, failed: nat, skipped: nat)
      modifies this
      ensures var p := FirstPass(env, cs, wpPostId, old(Snapshot()));
        idMap == p.idMap && Snapshot() == p.st &&
        success == CountSuccess(p.outcomes) && failed == CountFailed(p.outcomes) && skipped == CountSkipped(p.outcomes)
    {
      ghost var st := Snapshot();
      ghost var os: seq<CommentOutcome> := [];
      idMap := map[];
      success, failed, skipped := 0, 0, 0;
      var i := 0;
      while i < |cs|
        invariant 0 <= i <= |cs|
        invariant FirstPass(env, cs[..i], wpPostId, st) == Pass(os, idMap, Snapshot())
        invariant success == CountSuccess(os) && failed == CountFailed(os) && skipped == CountSkipped(os)
      {
        FirstPassSnoc(env, cs, wpPostId, st, i);
        var c := cs[i];
        var o;
        var existing := ExistingComment(db, c.id);
        if existing.Some? {
          o := Existing(existing.value);
          skipped := skipped + 1;
          idMap := idMap[c.id := existing.value];
        } else {
          o := ImportComment(env, c, wpPostId);
          if o.InsertFailed? {
            failed := failed + 1;
          } else {
            success := success + 1;
            idMap := idMap[c.id := o.id];
          }
        }
        os := os + [o];
        assert os[..|os| - 1] == os[..i];
        i := i + 1;
      }
      assert cs[..i] == cs;
    }

    /** The second loop of import_comments: wp_update_comment sets the parent of every reply whose parent is mapped. */
    method RelinkLoop(cs: seq<CommentData>, idMap: map<string, nat>)
      modifies this
      ensures table == Relink(cs, idMap, old(table)) && db == old(db)
    {
      ghost var start := table;
      var i := 0;
      while i < |cs|
        invariant 0 <= i <= |cs|
        invariant table == Relink(cs[..i], idMap, start) && db == old(db)
      {
        RelinkSnoc(cs, idMap, start, i);
        var c := cs[i];
        if c.id in idMap && HasParent(c) && c.parentId.value in idMap {
          var w := idMap[c.id];
          if w in table {
            table := table[w := table[w].(parent := idMap[c.parentId.value])];
          }
        }
        i := i + 1;
      }
      assert cs[..i] == cs;
    }

    /** import_comments: insert every comment not yet mapped, then set the parents of replies. */
    method ImportComments(env: CommentEnv, cs: seq<CommentData>, wpPostId: nat) returns (r: CommentResults)
      modifies this
      ensures (r, Snapshot()) == ImportCommentsSpec(env, cs, wpPostId, old(Snapshot()))
    {
      var idMap, success, failed, skipped := FirstPassLoop(env, cs, wpPostId);
      RelinkLoop(cs, idMap);
      r := CommentResults(|cs|, success, failed, skipped);
    }

    /** One post of import_all_comments, given its group of comments. */
    method ImportGroup(env: CommentEnv, cs: seq<CommentData>, k: string, group: seq<CommentData>,
                       postMapping: map<string, nat>, t: Totals) returns (t': Totals)
      requires group == WithPost(cs, k)
      modifies this
      ensures (t', Snapshot()) == GroupStep(env, cs, k, postMapping, (t, old(Snapshot())))
    {
      var wp := PostTarget(postMapping, db, k);
      if wp == 0 {
        t' := t.(failed := t.failed + |group|);
      } else {
        var pr := ImportComments(env, group, wp);
        t' := Totals(t.success + pr.success, t.failed + pr.failed, t.skipped + pr.skipped);
      }
    }

    /** import_all_comments: group the comments by Blogger post, then import each group into its WordPress post. */
    method ImportAllComments(env: CommentEnv, cs: seq<CommentData>, postMapping: map<string, nat>) returns (r: CommentResults)
      modifies this
      ensures (r, Snapshot()) == ImportAllSpec(env, cs, postMapping, old(Snapshot()))
    {
      ghost var st := Snapshot();
      var keys, groups := GroupByPost(cs);
      var t := Totals(0, 0, 0);
      var i := 0;
      while i < |keys|
        invariant 0 <= i <= |keys|
        invariant ImportGroups(env, cs, keys[..i], postMapping, st) == (t, Snapshot())
      {
        ImportGroupsSnoc(env, cs, keys, postMapping, st, i);
        GroupMapKeys(cs, keys[i]);
        GroupMapSpec(cs, keys[i]);
        t := ImportGroup(env, cs, keys[i], groups[keys[i]], postMapping, t);
        i := i + 1;
      }
      assert keys[..i] == keys;
      r := CommentResults(|cs|, t.success, t.failed, t.skipped);
    }
  }

  /** The comments_by_post array the grouping loop builds, as a function of the comments. */
  function GroupMap(cs: seq<CommentData>): map<string, seq<CommentData>> {
    if cs == [] then map[]
    else
      var m := GroupMap(cs[..|cs| - 1]);
      var c := cs[|cs| - 1];
      m[c.postId := if c.postId in m then m[c.postId] + [c] else [c]]
  }

  lemma GroupMapSnoc(cs: seq<CommentData>, i: nat)
    requires i < |cs|
    ensures var m := GroupMap(cs[..i]);
      GroupMap(cs[..i + 1]) == m[cs[i].postId := if cs[i].postId in m then m[cs[i].postId] + [cs[i]] else [cs[i]]]
  {
    var t := cs[..i + 1];
    assert t[..|t| - 1] == cs[..i] && t[|t| - 1] == cs[i];
  }

  /** The map has a group for exactly the post ids that occur, and each group is that post's comments in order. */
  lemma {:induction false} GroupMapSpec(cs: seq<CommentData>, k: string)
    ensures k in GroupMap(cs) <==> k in PostIds(cs)
    ensures k in GroupMap(cs) ==> GroupMap(cs)[k] == WithPost(cs, k)
  {
    if cs != [] {
      var n := |cs| - 1;
      GroupMapSpec(cs[..n], k);
      assert PostIds(cs)[..n] == PostIds(cs[..n]);
      assert PostIds(cs) == PostIds(cs[..n]) + [cs[n].postId];
      if k == cs[n].postId && k !in GroupMap(cs[..n]) {
        WithPostAbsent(cs[..n], k);
      }
    }
  }

  /** The keys of comments_by_post in insertion order: each post id where it first occurs. */
  function GroupKeys(cs: seq<CommentData>): seq<string> {
    if cs == [] then []
    else
      var ks := GroupKeys(cs[..|cs| - 1]);
      var k := cs[|cs| - 1].postId;
      if k in ks then ks else ks + [k]
  }

  lemma GroupKeysSnoc(cs: seq<CommentData>, i: nat)
    requires i < |cs|
    ensures var ks := GroupKeys(cs[..i]);
      GroupKeys(cs[..i + 1]) == if cs[i].postId in ks then ks else ks + [cs[i].postId]
  {
    var t := cs[..i + 1];
    assert t[..|t| - 1] == cs[..i] && t[|t| - 1] == cs[i];
  }

  /** The insertion order of comments_by_post is array_unique of the post ids. */
  lemma {:induction false} GroupKeysUnique(cs: seq<CommentData>)
    ensures GroupKeys(cs) == Unique(PostIds(cs))
  {
    if cs != [] {
      var n := |cs| - 1;
      GroupKeysUnique(cs[..n]);
      assert PostIds(cs)[..n] == PostIds(cs[..n]);
    }
  }

  /** The map has a group for exactly the listed keys. */
  lemma {:induction false} GroupMapKeys(cs: seq<CommentData>, k: string)
    ensures k in GroupMap(cs) <==> k in GroupKeys(cs)
  {
    if cs != [] {
      GroupMapKeys(cs[..|cs| - 1], k);
    }
  }

  /** The grouping loop of import_all_comments: post ids in first-seen order, each with its comments in order. */
  method GroupByPost(cs: seq<CommentData>) returns (keys: seq<string>, groups: map<string, seq<CommentData>>)
    ensures keys == GroupKeys(cs) && groups == GroupMap(cs)
  {
    keys, groups := [], map[];
    var i := 0;
    assert cs[..0] == [];
    while i < |cs|
      invariant 0 <= i <= |cs|
      invariant keys == GroupKeys(cs[..i]) && groups == GroupMap(cs[..i])
    {
      var c := cs[i];
      GroupKeysSnoc(cs, i);
      GroupMapSnoc(cs, i);
      GroupMapKeys(cs[..i], c.postId);
      if c.postId in groups {
        groups := groups[c.postId := groups[c.postId] + [c]];
      } else {
        groups := groups[c.postId := [c]];
        keys := keys + [c.postId];
      }
      i := i + 1;
    }
    assert cs[..i] == cs;
  }
}
