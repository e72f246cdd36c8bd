/**
 * Post and page import (includes/post-importer.php): a Blogger entry not yet
 * mapped is converted to blocks, given a unique slug and inserted; the
 * mapping is stored and its labels imported. import_posts runs this over a
 * list, and find_author_id picks a WordPress user for a Blogger author.
 */
module PostImporter {
  import opened Wrappers
  import opened PhpString
  import Utils
  import opened XmlParser
  import opened DbHandler
  import BlockConverter
  import TagHandler

  /** The post array import_post hands to wp_insert_post (comment and ping status are always "open"). */
  datatype WpPost = WpPost(
    title: string, content: string, status: Status, author: nat, postType: string,
    slug: string, date: string, modified: string)

  /**
   * What execute_with_retry gives for wp_insert_post: a post id, a WP_Error
   * (which is not false, so it is returned at once), or false once every
   * attempt threw.
   */
  datatype InsertResult = Created(id: nat) | WpError | NoValue

  /**
   * The collaborators of import_post: the block converter's environment,
   * sanitize_title, bio_format_date, get_current_user_id, the retried
   * wp_insert_post and wp_insert_term for the labels.
   */
  datatype PostEnv = PostEnv(
    blocks: BlockConverter.Env, sanitizeTitle: string -> string, formatDate: string -> string,
    currentUser: nat, insertPost: WpPost -> InsertResult, tags: TagHandler.TagEnv)

  /** The mapping store, the posts table and the label terms. */
  datatype PostState = PostState(db: DbState, posts: map<nat, WpPost>, terms: TagHandler.TermState)

  /** What happened to one entry; id is 0 when the insert gave false. */
  datatype PostOutcome = PostExisting(id: nat) | PostImported(id: nat) | PostFailed

  datatype PostResults = PostResults(total: nat, success: nat, failed: nat, skipped: nat, postIds: seq<nat>)

  /** post_type: "page" exactly for an entry of type page, "post" for everything else. */
  function PostTypeOf(p: ContentData): (t: string)
    ensures t == "page" <==> p.kind == PageType
    ensures t == "page" || t == "post"
  {
    if p.kind == PageType then "page" else "post"
  }

  /** get_wp_post_id_from_blogger_id as the `if ($existing_post_id)` test reads it: a stored id other than 0. */
  function ExistingPost(db: DbState, bloggerId: string): Option<nat> {
    var w := WpPostIdFromBloggerId(db, bloggerId);
    if w.Some? && w.value != 0 then w else None
  }

  /** The slugs the posts of one type use, which the slug lookup queries. */
  function TakenSlugs(posts: map<nat, WpPost>, postType: string): set<string> {
    set id | id in posts && posts[id].postType == postType :: posts[id].slug
  }

  /** The post import_post builds for an entry, given the posts already there. */
  function NewPost(env: PostEnv, p: ContentData, posts: map<nat, WpPost>): WpPost {
    var postType := PostTypeOf(p);
    WpPost(p.title, env.blocks.serialize(BlockConverter.ConvertedBlocks(env.blocks, p.content)), p.status,
           env.currentUser, postType, Utils.UniqueSlug(p.title, env.sanitizeTitle, TakenSlugs(posts, postType)),
           env.formatDate(p.published), env.formatDate(p.updated))
  }

  /** The id wp_insert_post's result stands for: false is stored and returned as it is, here 0. */
  function InsertedId(r: InsertResult): nat
    requires !r.WpError?
  {
    if r.Created? then r.id else 0
  }

  /** import_post: the outcome and the state afterwards. */
  function ImportPostSpec(env: PostEnv, p: ContentData, st: PostState): (PostOutcome, PostState) {
    var e := ExistingPost(st.db, p.id);
    if e.Some? then (PostExisting(e.value), st)
    else
      var wp := NewPost(env, p, st.posts);
      var res := env.insertPost(wp);
      if res.WpError? then (PostFailed, st)
      else
        var id := InsertedId(res);
        var posts := if res.Created? then st.posts[id := wp] else st.posts;
        var db := StorePostMapping(st.db, p.id, id, p.permalink.GetOr(""));
        var terms := if p.tags != [] then TagHandler.ImportTagsSpec(env.tags, id, p.tags, st.terms).1 else st.terms;
        (PostImported(id), PostState(db, posts, terms))
  }

  /**
   * An entry already mapped gives its id and changes nothing, without being
   * converted or inserted. A WP_Error changes nothing. Otherwise the mapping
   * is stored, the post is in the table when it was created, and the labels
   * are imported only when there are any.
   */
  lemma ImportPostFacts(env: PostEnv, p: ContentData, st: PostState)
    ensures var res := ImportPostSpec(env, p, st);
      (ExistingPost(st.db, p.id).Some? ==> res == (PostExisting(ExistingPost(st.db, p.id).value), st)) &&
      (res.0.PostFailed? ==> res.1 == st && env.insertPost(NewPost(env, p, st.posts)).WpError?) &&
      (res.0.PostImported? ==>
        ExistingPost(st.db, p.id).None? &&
        WpPostIdFromBloggerId(res.1.db, p.id) == Some(res.0.id) &&
        (res.0.id != 0 ==> res.1.db.postMeta == st.db.postMeta[res.0.id := PostMeta(p.id, p.permalink.GetOr(""))]) &&
        (res.0.id == 0 ==> res.1.db.postMeta == st.db.postMeta) &&
        (env.insertPost(NewPost(env, p, st.posts)).Created? ==> res.1.posts == st.posts[res.0.id := NewPost(env, p, st.posts)]) &&
        (p.tags == [] ==> res.1.terms == st.terms))
  {
  }

  /** The new post's slug differs from that of every post of the same type with a non-empty slug. */
  lemma NewPostSlugFresh(env: PostEnv, p: ContentData, posts: map<nat, WpPost>, id: nat)
    requires id in posts && posts[id].postType == PostTypeOf(p) && Truthy(posts[id].slug)
    ensures NewPost(env, p, posts).slug != posts[id].slug
  {
    var taken := TakenSlugs(posts, PostTypeOf(p));
    assert posts[id].slug in taken;
    Utils.UniqueSlugFree(p.title, env.sanitizeTitle, taken);
  }

  /**
   * When every insert attempt throws, execute_with_retry gives false, which
   * is not a WP_Error: the entry counts as imported with id 0, and the
   * mapping stored for it is falsy, so the entry is not seen as imported later.
   */
  lemma FalseInsertCountsAsImported(env: PostEnv, p: ContentData, st: PostState)
    requires ExistingPost(st.db, p.id).None?
    requires env.insertPost(NewPost(env, p, st.posts)).NoValue?
    ensures var res := ImportPostSpec(env, p, st);
      res.0 == PostImported(0) && ExistingPost(res.1.db, p.id).None? && res.1.posts == st.posts &&
      res.1.db.postMeta == st.db.postMeta
  {
  }

  /** Importing one entry never changes the answer for another Blogger id that is already mapped. */
  lemma ImportPostKeepsKnown(env: PostEnv, p: ContentData, st: PostState, x: string, w: nat)
    requires ExistingPost(st.db, x) == Some(w)
    ensures ExistingPost(ImportPostSpec(env, p, st).1.db, x) == Some(w)
  {
  }

  /* ---------------- import_posts ---------------- */

  /** The loop of import_posts so far: the outcomes and the state. */
  datatype PostRun = PostRun(outcomes: seq<PostOutcome>, st: PostState)

  function PostStep(env: PostEnv, p: ContentData, r: PostRun): (q: PostRun)
    ensures |q.outcomes| == |r.outcomes| + 1
  {
    var step := ImportPostSpec(env, p, r.st);
    PostRun(r.outcomes + [step.0], step.1)
  }

  function RunPosts(env: PostEnv, ps: seq<ContentData>, st: PostState): (r: PostRun)
    ensures |r.outcomes| == |ps|
    decreases |ps|
  {
    if ps == [] then PostRun([], st)
    else PostStep(env, ps[|ps| - 1], RunPosts(env, ps[..|ps| - 1], st))
  }

  lemma RunPostsSnoc(env: PostEnv, ps: seq<ContentData>, st: PostState, i: nat)
    requires i < |ps|
    ensures RunPosts(env, ps[..i + 1], st) == PostStep(env, ps[i], RunPosts(env, ps[..i], st))
  {
    var t := ps[..i + 1];
    assert t[..|t| - 1] == ps[..i] && t[|t| - 1] == ps[i];
  }

  /** The outcome of entry k is decided by the state the entries before it left. */
  lemma {:induction false} RunPostsAt(env: PostEnv, ps: seq<ContentData>, st: PostState, k: nat)
    requires k < |ps|
    ensures RunPosts(env, ps, st).outcomes[k] == ImportPostSpec(env, ps[k], RunPosts(env, ps[..k], st).st).0
  {
    var n := |ps| - 1;
    if k < n {
      RunPostsAt(env, ps[..n], st, k);
      assert ps[..n][..k] == ps[..k] && ps[..n][k] == ps[k];
    } else {
      assert ps[..n] == ps[..k];
    }
  }

  /** One more entry of the loop keeps a mapped Blogger id mapped to the same id. */
  lemma PrefixKeepsKnown(env: PostEnv, ps: seq<ContentData>, st: PostState, m: nat, x: string, w: nat)
    requires m < |ps| && ExistingPost(RunPosts(env, ps[..m], st).st.db, x) == Some(w)
    ensures ExistingPost(RunPosts(env, ps[..m + 1], st).st.db, x) == Some(w)
  {
    RunPostsSnoc(env, ps, st, m);
    ImportPostKeepsKnown(env, ps[m], RunPosts(env, ps[..m], st).st, x, w);
  }

  /** A Blogger id mapped after the first i entries stays mapped to the same id to the end of the loop. */
  lemma {:induction false} PostKnownPersists(env: PostEnv, ps: seq<ContentData>, st: PostState, i: nat, n: nat, x: string, w: nat)
    requires i <= n <= |ps|
    requires ExistingPost(RunPosts(env, ps[..i], st).st.db, x) == Some(w)
    ensures ExistingPost(RunPosts(env, ps[..n], st).st.db, x) == Some(w)
    decreases n
  {
    if n > i {
      PostKnownPersists(env, ps, st, i, n - 1, x, w);
      PrefixKeepsKnown(env, ps, st, n - 1, x, w);
    }
  }

  /** An entry mapped before the loop is skipped with its stored id, wherever it appears. */
  lemma KnownPostSkipped(env: PostEnv, ps: seq<ContentData>, st: PostState, k: nat)
    requires k < |ps| && ExistingPost(st.db, ps[k].id).Some?
    ensures RunPosts(env, ps, st).outcomes[k] == PostExisting(ExistingPost(st.db, ps[k].id).value)
  {
    assert ps[..0] == [];
    PostKnownPersists(env, ps, st, 0, k, ps[k].id, ExistingPost(st.db, ps[k].id).value);
    RunPostsAt(env, ps, st, k);
  }

  /** An entry listed twice is inserted once when its first copy gets a real id: the later copy is skipped. */
  lemma DuplicatePostSkipped(env: PostEnv, ps: seq<ContentData>, st: PostState, j: nat, k: nat)
    requires j < k < |ps| && ps[j].id == ps[k].id
    requires var o := RunPosts(env, ps, st).outcomes[j]; !o.PostFailed? && o.id != 0
    ensures RunPosts(env, ps, st).outcomes[k] == PostExisting(RunPosts(env, ps, st).outcomes[j].id)
  {
    var r := RunPosts(env, ps, st);
    RunPostsAt(env, ps, st, j);
    RunPostsSnoc(env, ps, st, j);
    ImportPostFacts(env, ps[j], RunPosts(env, ps[..j], st).st);
    assert ExistingPost(RunPosts(env, ps[..j + 1], st).st.db, ps[j].id) == Some(r.outcomes[j].id);
    PostKnownPersists(env, ps, st, j + 1, k, ps[j].id, r.outcomes[j].id);
    RunPostsAt(env, ps, st, k);
  }

  function CountImported(os: seq<PostOutcome>): nat {
    if os == [] then 0 else CountImported(os[..|os| - 1]) + (if os[|os| - 1].PostImported? then 1 else 0)
  }

  function CountFailed(os: seq<PostOutcome>): nat {
    if os == [] then 0 else CountFailed(os[..|os| - 1]) + (if os[|os| - 1].PostFailed? then 1 else 0)
  }

  function CountExisting(os: seq<PostOutcome>): nat {
    if os == [] then 0 else CountExisting(os[..|os| - 1]) + (if os[|os| - 1].PostExisting? then 1 else 0)
  }

  /** post_ids: the ids of the skipped and imported entries, in input order. */
  function PostIdsOf(os: seq<PostOutcome>): seq<nat> {
    if os == [] then []
    else
      var o := os[|os| - 1];
      PostIdsOf(os[..|os| - 1]) + (if o.PostFailed? then [] else [o.id])
  }

  /** One more outcome adds to exactly its own counter, and its id to post_ids unless it failed. */
  lemma PostCountsSnoc(os: seq<PostOutcome>, o: PostOutcome)
    ensures CountImported(os + [o]) == CountImported(os) + (if o.PostImported? then 1 else 0)
    ensures CountFailed(os + [o]) == CountFailed(os) + (if o.PostFailed? then 1 else 0)
    ensures CountExisting(os + [o]) == CountExisting(os) + (if o.PostExisting? then 1 else 0)
    ensures PostIdsOf(os + [o]) == PostIdsOf(os) + (if o.PostFailed? then [] else [o.id])
  {
    assert (os + [o])[..|os|] == os;
  }

  /**
   * Every entry lands in exactly one bucket, and post_ids has one id for
   * every skipped or imported entry.
   */
  lemma {:induction false} PostOutcomesPartition(os: seq<PostOutcome>)
    ensures CountImported(os) + CountFailed(os) + CountExisting(os) == |os|
    ensures |PostIdsOf(os)| == CountImported(os) + CountExisting(os)
  {
    if os != [] {
      PostOutcomesPartition(os[..|os| - 1]);
    }
  }

  /** post_ids keeps input order: the id of entry k sits after those of the non-failed entries before it. */
  lemma {:induction false} PostIdsAt(os: seq<PostOutcome>, k: nat)
    requires k < |os| && !os[k].PostFailed?
    ensures var ids := PostIdsOf(os); var n := |PostIdsOf(os[..k])|;
      n < |ids| && ids[n] == os[k].id
  {
    var m := |os| - 1;
    assert os[..m] + [os[m]] == os;
    if k < m {
      PostIdsAt(os[..m], k);
      assert os[..m][..k] == os[..k] && os[..m][k] == os[k];
    } else {
      assert os[..m] == os[..k];
    }
  }

  /** import_posts: the results and the state afterwards. */
  function ImportPostsSpec(env: PostEnv, ps: seq<ContentData>, st: PostState): (PostResults, PostState) {
    var r := RunPosts(env, ps, st);
    (PostResults(|ps|, CountImported(r.outcomes), CountFailed(r.outcomes), CountExisting(r.outcomes), PostIdsOf(r.outcomes)),
     r.st)
  }

  /** success + failed + skipped == total == count(posts), and post_ids has success + skipped entries. */
  lemma ImportPostsCounts(env: PostEnv, ps: seq<ContentData>, st: PostState)
    ensures var r := ImportPostsSpec(env, ps, st).0;
      r.total == |ps| && r.success + r.failed + r.skipped == r.total && |r.postIds| == r.success + r.skipped
  {
    PostOutcomesPartition(RunPosts(env, ps, st).outcomes);
  }

  /* ---------------- find_author_id ---------------- */

  /** get_user_by by email and by login, the first administrator get_users returns, and get_current_user_id. */
  datatype UserEnv = UserEnv(
    byEmail: string -> Option<nat>, byLogin: string -> Option<nat>, admins: seq<nat>, currentUser: nat)

  /** The candidates find_author_id tries, in order; None where a candidate does not apply. */
  function AuthorCandidates(env: UserEnv, email: string, name: string): seq<Option<nat>> {
    [if Truthy(email) then env.byEmail(email) else None,
     if Truthy(name) then env.byLogin(name) else None,
     if env.admins != [] then Some(env.admins[0]) else None,
     Some(env.currentUser)]
  }

  /** The first candidate that applies. */
  function FirstSome(cs: seq<Option<nat>>, default: nat): (r: nat)
    ensures (exists i | 0 <= i < |cs| :: cs[i].Some?) ==> exists i | 0 <= i < |cs| :: cs[i] == Some(r)
  {
    if cs == [] then default
    else if cs[0].Some? then cs[0].value
    else
      assert forall i | 1 <= i < |cs| :: cs[1..][i - 1] == cs[i];
      FirstSome(cs[1..], default)
  }

  /** find_author_id: email match, then login equal to the name, then the first administrator, then the current user. */
  function FindAuthorId(env: UserEnv, email: string, name: string): (id: nat)
    ensures Truthy(email) && env.byEmail(email).Some? ==> id == env.byEmail(email).value
    ensures !(Truthy(email) && env.byEmail(email).Some?) && Truthy(name) && env.byLogin(name).Some? ==>
      id == env.byLogin(name).value
    ensures !(Truthy(email) && env.byEmail(email).Some?) && !(Truthy(name) && env.byLogin(name).Some?) ==>
      id == if env.admins != [] then env.admins[0] else env.currentUser
  {
    if Truthy(email) && env.byEmail(email).Some? then env.byEmail(email).value
    else if Truthy(name) && env.byLogin(name).Some? then env.byLogin(name).value
    else if env.admins != [] then env.admins[0]
    else env.currentUser
  }

  /** find_author_id returns the first applicable candidate of the priority list, so it always names a candidate. */
  lemma FindAuthorIdFirstCandidate(env: UserEnv, email: string, name: string)
    ensures FindAuthorId(env, email, name) == FirstSome(AuthorCandidates(env, email, name), env.currentUser)
    ensures exists i | 0 <= i < 4 :: AuthorCandidates(env, email, name)[i] == Some(FindAuthorId(env, email, name))
  {
    var cs := AuthorCandidates(env, email, name);
    var id := FindAuthorId(env, email, name);
    var t1, t2, t3 := cs[1..], cs[2..], cs[3..];
    assert t1[1..] == t2 && t2[1..] == t3 && t3[1..] == [];
    assert t3[0] == Some(env.currentUser);
    if cs[0].Some? {
      assert cs[0] == Some(id);
    } else if cs[1].Some? {
      assert cs[1] == Some(id);
    } else if cs[2].Some? {
      assert FirstSome(cs, env.currentUser) == FirstSome(t1, env.currentUser) == FirstSome(t2, env.currentUser);
      assert cs[2] == Some(id);
    } else {
      assert FirstSome(cs, env.currentUser) == FirstSome(t2, env.currentUser) == FirstSome(t3, env.currentUser);
      assert cs[3] == Some(id);
    }
  }

  /* ---------------- state ---------------- */

  /** The mapping store and posts table, with the label terms kept by a tag store. */
  class PostStore {
    var db: DbState
    var posts: map<nat, WpPost>
    const tagStore: TagHandler.TagStore

    constructor(db: DbState, posts: map<nat, WpPost>, tagStore: TagHandler.TagStore)
      ensures this.db == db && this.posts == posts && this.tagStore == tagStore
    {
      this.db := db;
      this.posts := posts;
      this.tagStore := tagStore;
    }

    function Snapshot(): PostState
      reads this, tagStore
    {
      PostState(db, posts, tagStore.Snapshot())
    }

    /** import_post */
    method ImportPost(env: PostEnv, p: ContentData) returns (o: PostOutcome)
      modifies this, tagStore
      ensures (o, Snapshot()) == ImportPostSpec(env, p, old(Snapshot()))
    {
      var postType := PostTypeOf(p);
      var existing := ExistingPost(db, p.id);
      if existing.Some? {
        return PostExisting(existing.value);
      }
      var content := BlockConverter.ConvertToBlocks(env.blocks, p.content);
      var slug := Utils.GenerateUniqueSlug(p.title, env.sanitizeTitle, TakenSlugs(posts, postType));
      var wp := WpPost(p.title, content, p.status, env.currentUser, postType, slug,
                       env.formatDate(p.published), env.formatDate(p.updated));
      var res := env.insertPost(wp);
      if res.WpError? {
        return PostFailed;
      }
      var postId := InsertedId(res);
      if res.Created? {
        posts := posts[postId := wp];
      }
      db := StorePostMapping(db, p.id, postId, p.permalink.GetOr(""));
      if p.tags != [] {
        var _ := tagStore.ImportTags(env.tags, postId, p.tags);
      }
      o := PostImported(postId);
    }

    /** One turn of import_posts: an entry already mapped is skipped, otherwise import_post decides. */
    method ImportOne(env: PostEnv, p: ContentData) returns (o: PostOutcome)
      modifies this, tagStore
      ensures (o, Snapshot()) == ImportPostSpec(env, p, old(Snapshot()))
    {
      var existing := ExistingPost(db, p.id);
      if existing.Some? {
        return PostExisting(existing.value);
      }
      o := ImportPost(env, p);
    }

    /** The bookkeeping of one turn: the outcome goes to its counter, and its id to post_ids unless it failed. */
    method Tally(env: PostEnv, p: ContentData, ghost run: PostRun, c: PostResults) returns (ghost run': PostRun, c': PostResults)
      requires run.st == Snapshot()
      requires c == PostResults(0, CountImported(run.outcomes), CountFailed(run.outcomes), CountExisting(run.outcomes), PostIdsOf(run.outcomes))
      modifies this, tagStore
      ensures run' == PostStep(env, p, run) && run'.st == Snapshot()
      ensures c' == PostResults(0, CountImported(run'.outcomes), CountFailed(run'.outcomes), CountExisting(run'.outcomes), PostIdsOf(run'.outcomes))
    {
      var o := ImportOne(env, p);
      PostCountsSnoc(run.outcomes, o);
      if o.PostExisting? {
        c' := c.(skipped := c.skipped + 1, postIds := c.postIds + [o.id]);
      } else if o.PostFailed? {
        c' := c.(failed := c.failed + 1);
      } else {
        c' := c.(success := c.success + 1, postIds := c.postIds + [o.id]);
      }
      run' := PostRun(run.outcomes + [o], Snapshot());
    }

    /** import_posts: every entry is skipped, imported or failed, and post_ids collects the ids in order. */
    method ImportPosts(env: PostEnv, ps: seq<ContentData>) returns (r: PostResults)
      modifies this, tagStore
      ensures (r, Snapshot()) == ImportPostsSpec(env, ps, old(Snapshot()))
    {
      ghost var st := Snapshot();
      ghost var run := PostRun([], st);
      r := PostResults(0, 0, 0, 0, []);
      var i := 0;
      while i < |ps|
        invariant 0 <= i <= |ps|
        invariant run == RunPosts(env, ps[..i], st) && run.st == Snapshot()
        invariant r == PostResults(0, CountImported(run.outcomes), CountFailed(run.outcomes), CountExisting(run.outcomes), PostIdsOf(run.outcomes))
      {
        RunPostsSnoc(env, ps, st, i);
        run, r := Tally(env, ps[i], run, r);
        i := i + 1;
      }
      assert ps[..i] == ps;
      r := r.(total := |ps|);
    }
  }
}
