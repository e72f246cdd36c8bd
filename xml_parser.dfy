/**
 * The Blogger export reader (includes/xml-parser.php). The XML streaming
 * itself is outside the model: every <entry> arrives as an already-extracted
 * record, and a file is either missing, unreadable, or a sequence of entries
 * some of which may fail to load as XML.
 */
module XmlParser {
  import opened Wrappers
  import opened PhpString
  import opened PhpArray

  const KindScheme := "http://schemas.google.com/g/2005#kind"
  const KindPost := "http://schemas.google.com/blogger/2008/kind#post"
  const KindPage := "http://schemas.google.com/blogger/2008/kind#page"
  const KindDraft := "http://schemas.google.com/blogger/2008/kind#draft"
  const LabelNamespace := "http://www.blogger.com/atom/ns#"

  /** An atom:category; an absent attribute reads as "". */
  datatype Category = Category(scheme: string, term: string)

  /** An atom:link; an absent attribute reads as "". */
  datatype Link = Link(rel: string, href: string)

  /** A child element of atom:author, by local name and text. */
  datatype XmlChild = XmlChild(name: string, text: string)

  /**
   * One <entry>, as SimpleXML exposes it. `inReplyTo` is Some(ref) when the
   * entry has a thr:in-reply-to child (ref is "" when that child has no ref
   * attribute). `imgSrcs` and `iframeSrcs` are the src values the two
   * patterns <img ... src="..."> and <iframe ... src="..."> capture in
   * `content`, in order.
   */
  datatype Entry = Entry(
    id: string, title: string, content: string, published: string, updated: string,
    authorName: string, authorEmail: string, authorChildren: seq<XmlChild>,
    categories: seq<Category>, links: seq<Link>, inReplyTo: Option<string>,
    imgSrcs: seq<string>, iframeSrcs: seq<string>)

  datatype EntryType = PostType | PageType | CommentType

  datatype Status = Publish | Draft

  datatype ContentData = ContentData(
    kind: EntryType, id: string, title: string, content: string,
    published: string, updated: string, authorName: string, authorEmail: string,
    tags: seq<string>, mediaUrls: seq<string>, permalink: Option<string>, status: Status)

  /** A comment; `parentId` None stands for the source's parent_id 0. */
  datatype CommentData = CommentData(
    id: string, content: string, published: string, updated: string,
    authorName: string, authorEmail: string, authorUrl: string,
    postId: string, parentId: Option<string>)

  datatype EntryData = ContentEntry(c: ContentData) | CommentEntry(m: CommentData)

  /* ---------------- classification ---------------- */

  /** The term of the first category whose scheme is the kind scheme, or "". */
  function KindTerm(cats: seq<Category>): (t: string)
    ensures (forall i | 0 <= i < |cats| :: cats[i].scheme != KindScheme) ==> t == ""
  {
    if cats == [] then ""
    else if cats[0].scheme == KindScheme then cats[0].term
    else KindTerm(cats[1..])
  }

  /** cats[i] is the first category carrying the kind scheme. */
  predicate FirstKindCategory(cats: seq<Category>, i: int) {
    0 <= i < |cats| && cats[i].scheme == KindScheme &&
    forall j | 0 <= j < i :: cats[j].scheme != KindScheme
  }

  lemma {:induction false} KindTermIsFirst(cats: seq<Category>, i: int)
    requires FirstKindCategory(cats, i)
    ensures KindTerm(cats) == cats[i].term
  {
    if i > 0 {
      assert cats[0].scheme != KindScheme;
      assert FirstKindCategory(cats[1..], i - 1);
      KindTermIsFirst(cats[1..], i - 1);
    }
  }

  lemma {:induction false} KindTermShape(cats: seq<Category>)
    ensures KindTerm(cats) == "" || exists i :: FirstKindCategory(cats, i)
    ensures (exists i :: FirstKindCategory(cats, i)) ==> exists i :: FirstKindCategory(cats, i) && KindTerm(cats) == cats[i].term
  {
    if cats != [] {
      if cats[0].scheme == KindScheme {
        assert FirstKindCategory(cats, 0);
      } else {
        KindTermShape(cats[1..]);
        if i :| FirstKindCategory(cats[1..], i) {
          assert FirstKindCategory(cats, i + 1);
        }
        if i :| FirstKindCategory(cats, i) {
          assert FirstKindCategory(cats[1..], i - 1);
          KindTermIsFirst(cats, i);
        }
      }
    }
  }

  /**
   * get_entry_type: a reply-to marker makes a comment whatever the
   * categories say; otherwise the first kind category decides page versus post.
   */
  function GetEntryType(e: Entry): (t: EntryType)
    ensures t == CommentType <==> e.inReplyTo.Some?
    ensures t == PageType <==>
      e.inReplyTo.None? &&
      exists i :: FirstKindCategory(e.categories, i) && Contains(e.categories[i].term, "#page")
    ensures t == PostType <==>
      e.inReplyTo.None? &&
      forall i :: FirstKindCategory(e.categories, i) ==> !Contains(e.categories[i].term, "#page")
  {
    KindTermShape(e.categories);
    assert !Contains("", "#page");
    if e.inReplyTo.Some? then CommentType
    else if Contains(KindTerm(e.categories), "#page") then PageType
    else PostType
  }

  /* ---------------- status and labels ---------------- */

  function TermStatus(cats: seq<Category>): (s: Status)
    ensures s == Draft <==> exists i | 0 <= i < |cats| :: cats[i].term == KindDraft
  {
    if cats == [] then Publish
    else if cats[0].term == KindDraft then Draft
    else
      var s := TermStatus(cats[1..]);
      assert forall i | 1 <= i < |cats| :: cats[i] == cats[1..][i - 1];
      s
  }

  /** A category term that process_content_entry keeps as a label. */
  predicate IsLabelTerm(t: string) {
    t != KindPost && t != KindPage && t != KindDraft && !Contains(t, LabelNamespace)
  }

  /** The label kept for a label term (str_replace of the label namespace). */
  function LabelOf(t: string): (l: string)
    requires IsLabelTerm(t)
    ensures l == t
  {
    ReplaceAllAbsent(t, LabelNamespace, "", false);
    ReplaceAll(t, LabelNamespace, "", false)
  }

  /** The labels of an entry, in category order, repeats kept. */
  function Labels(cats: seq<Category>): (r: seq<string>)
    ensures |r| <= |cats|
    ensures forall k | 0 <= k < |r| :: IsLabelTerm(r[k])
  {
    if cats == [] then []
    else if IsLabelTerm(cats[0].term) then [LabelOf(cats[0].term)] + Labels(cats[1..])
    else Labels(cats[1..])
  }

  lemma {:induction false} LabelsAppend(a: seq<Category>, b: seq<Category>)
    ensures Labels(a + b) == Labels(a) + Labels(b)
  {
    if a != [] {
      assert (a + b)[1..] == a[1..] + b;
      LabelsAppend(a[1..], b);
    } else {
      assert a + b == b;
    }
  }

  lemma LabelsSingle(c: Category)
    ensures Labels([c]) == if IsLabelTerm(c.term) then [c.term] else []
  {
    assert [c][1..] == [];
  }

  /* ---------------- media URLs ---------------- */

  const MediaDomains := ["blogspot.com", "blogger.com", "bp.blogspot.com", "googleusercontent.com"]
  const MediaExtensions := [".jpg", ".jpeg", ".png", ".gif", ".webp", ".svg", ".mp4", ".webm", ".ogg"]

  predicate IsMediaUrl(u: string) {
    (exists d | d in MediaDomains :: Contains(u, d)) ||
    (exists x | x in MediaExtensions :: Contains(u, x))
  }

  function MediaFilter(s: seq<string>): (r: seq<string>)
    ensures forall u :: u in r <==> u in s && IsMediaUrl(u)
  {
    if s == [] then []
    else
      var rest := MediaFilter(s[..|s| - 1]);
      assert s == s[..|s| - 1] + [s[|s| - 1]];
      if IsMediaUrl(s[|s| - 1]) then rest + [s[|s| - 1]] else rest
  }

  lemma {:induction false} MediaFilterKeepsOrder(d: seq<string>, s: seq<string>)
    requires InFirstOccurrenceOrder(d, s)
    ensures InFirstOccurrenceOrder(MediaFilter(d), s)
  {
    if d != [] {
      var init := d[..|d| - 1];
      var x := d[|d| - 1];
      OrderInit(d, s);
      MediaFilterKeepsOrder(init, s);
      var f := MediaFilter(init);
      assert MediaFilter(d) == if IsMediaUrl(x) then f + [x] else f;
      if IsMediaUrl(x) {
        forall k | 0 <= k < |f| ensures FirstIndex(s, f[k]) < FirstIndex(s, x) {
          assert f[k] in init;
          var i := FirstIndex(init, f[k]);
          assert d[i] == f[k];
        }
        OrderSnoc(f, x, s);
      }
    }
  }

  /**
   * extract_media_urls, given the two pattern matches: the media URLs among
   * the image sources followed by the iframe sources, each kept once at its
   * first position.
   */
  function ExtractMediaUrls(imgSrcs: seq<string>, iframeSrcs: seq<string>): (r: seq<string>)
    ensures forall u :: u in r <==> u in imgSrcs + iframeSrcs && IsMediaUrl(u)
    ensures InFirstOccurrenceOrder(r, imgSrcs + iframeSrcs)
    ensures NoDup(r)
  {
    var u := Unique(imgSrcs + iframeSrcs);
    MediaFilterKeepsOrder(u, imgSrcs + iframeSrcs);
    var r := MediaFilter(u);
    OrderImpliesNoDup(r, imgSrcs + iframeSrcs);
    r
  }

  /* ---------------- entry processing ---------------- */

  /** links[i] is the first link whose rel is "alternate". */
  predicate FirstAlternate(links: seq<Link>, i: int) {
    0 <= i < |links| && links[i].rel == "alternate" &&
    forall j | 0 <= j < i :: links[j].rel != "alternate"
  }

  /** The href of the first alternate link, absent when there is none. */
  function Permalink(links: seq<Link>): (p: Option<string>)
    ensures p.None? <==> forall i | 0 <= i < |links| :: links[i].rel != "alternate"
    ensures p.Some? ==> exists i :: FirstAlternate(links, i) && p.value == links[i].href
  {
    if links == [] then None
    else if links[0].rel == "alternate" then
      assert FirstAlternate(links, 0);
      Some(links[0].href)
    else
      var p := Permalink(links[1..]);
      assert forall i | 1 <= i < |links| :: links[i] == links[1..][i - 1];
      assert forall i :: FirstAlternate(links[1..], i) ==> FirstAlternate(links, i + 1);
      p
  }

  function ProcessContentEntry(e: Entry, kind: EntryType): (c: ContentData)
    ensures c.kind == kind && c.id == e.id && c.content == e.content
    ensures c.tags == Labels(e.categories) && c.status == TermStatus(e.categories)
    ensures c.mediaUrls == ExtractMediaUrls(e.imgSrcs, e.iframeSrcs)
  {
    ContentData(kind, e.id, e.title, e.content, e.published, e.updated, e.authorName, e.authorEmail,
                Labels(e.categories), ExtractMediaUrls(e.imgSrcs, e.iframeSrcs),
                Permalink(e.links), TermStatus(e.categories))
  }

  /** The text of the first author child named "uri", or "". */
  function AuthorUrl(children: seq<XmlChild>): string {
    if children == [] then ""
    else if children[0].name == "uri" then children[0].text
    else AuthorUrl(children[1..])
  }

  function ProcessCommentEntry(e: Entry): (m: CommentData)
    requires e.inReplyTo.Some?
    ensures m.id == e.id && m.postId == e.inReplyTo.value && m.parentId.None?
  {
    CommentData(e.id, e.content, e.published, e.updated, e.authorName, e.authorEmail,
                AuthorUrl(e.authorChildren), e.inReplyTo.value, None)
  }

  function ProcessEntry(e: Entry): (d: EntryData)
    ensures d.CommentEntry? <==> e.inReplyTo.Some?
    ensures d.ContentEntry? ==> d.c.kind == GetEntryType(e) && d.c.kind != CommentType
  {
    var t := GetEntryType(e);
    if t == CommentType then CommentEntry(ProcessCommentEntry(e))
    else ContentEntry(ProcessContentEntry(e, t))
  }

  /* ---------------- accumulation ---------------- */

  datatype Stats = Stats(posts: nat, pages: nat, comments: nat, tags: nat, media: nat)

  const ZeroStats := Stats(0, 0, 0, 0, 0)

  function AddStats(a: Stats, b: Stats): Stats {
    Stats(a.posts + b.posts, a.pages + b.pages, a.comments + b.comments, a.tags + b.tags, a.media + b.media)
  }

  datatype ParsedData = ParsedData(
    posts: seq<ContentData>, pages: seq<ContentData>, comments: seq<CommentData>,
    tags: seq<string>, mediaUrls: seq<string>)

  const EmptyData := ParsedData([], [], [], [], [])

  /** The data arrays and the counters after some entries, as the parse loop keeps them. */
  datatype Acc = Acc(data: ParsedData, stats: Stats)

  /** The tag-collecting loop: each tag not yet collected is appended. */
  function MergeTags(global: seq<string>, tags: seq<string>): (r: seq<string>)
    decreases |tags|
    ensures NoDup(global) ==> NoDup(r)
    ensures forall t :: t in r <==> t in global || t in tags
    ensures global <= r
  {
    if tags == [] then global
    else if tags[0] in global then MergeTags(global, tags[1..])
    else MergeTags(global + [tags[0]], tags[1..])
  }

  /** The tag-collecting loop over the global list; returns the new list and how many were added. */
  method CollectTags(global: seq<string>, tags: seq<string>) returns (r: seq<string>, added: nat)
    ensures r == MergeTags(global, tags) && added == |r| - |global|
  {
    r, added := global, 0;
    var t := 0;
    while t < |tags|
      invariant 0 <= t <= |tags|
      invariant MergeTags(r, tags[t..]) == MergeTags(global, tags)
      invariant added == |r| - |global|
    {
      if tags[t] !in r {
        r := r + [tags[t]];
        added := added + 1;
      }
      assert tags[t..][1..] == tags[t + 1..];
      t := t + 1;
    }
    assert tags[t..] == [];
  }

  function TagsOf(d: EntryData): seq<string> {
    if d.ContentEntry? then d.c.tags else []
  }

  function MediaOf(d: EntryData): seq<string> {
    if d.ContentEntry? then d.c.mediaUrls else []
  }

  /** Filing a processed entry under its type, with its counter. */
  function FileEntry(a: Acc, d: EntryData): Acc {
    var data := a.data;
    var st := a.stats;
    match d
    case CommentEntry(m) => Acc(data.(comments := data.comments + [m]), st.(comments := st.comments + 1))
    case ContentEntry(c) =>
      if c.kind == PostType then Acc(data.(posts := data.posts + [c]), st.(posts := st.posts + 1))
      else if c.kind == PageType then Acc(data.(pages := data.pages + [c]), st.(pages := st.pages + 1))
      else a
  }

  /** One iteration of the parse loop for a processed entry. */
  function AddEntry(a: Acc, d: EntryData): Acc {
    var a1 := FileEntry(a, d);
    var merged := MergeTags(a1.data.tags, TagsOf(d));
    Acc(a1.data.(tags := merged, mediaUrls := a1.data.mediaUrls + MediaOf(d)),
        a1.stats.(tags := a1.stats.tags + (|merged| - |a1.data.tags|), media := a1.stats.media + |MediaOf(d)|))
  }

  /** Every counter equals the length of its list and the global tag list is duplicate-free. */
  predicate Consistent(a: Acc) {
    a.stats.posts == |a.data.posts| && a.stats.pages == |a.data.pages| &&
    a.stats.comments == |a.data.comments| && a.stats.tags == |a.data.tags| &&
    a.stats.media == |a.data.mediaUrls| && NoDup(a.data.tags)
  }

  function Entries(a: Acc): nat {
    |a.data.posts| + |a.data.pages| + |a.data.comments|
  }

  lemma AddEntryConsistent(a: Acc, d: EntryData)
    requires Consistent(a)
    requires d.ContentEntry? ==> d.c.kind != CommentType
    ensures Consistent(AddEntry(a, d))
    ensures Entries(AddEntry(a, d)) == Entries(a) + 1
    ensures forall t :: t in AddEntry(a, d).data.tags <==> t in a.data.tags || t in TagsOf(d)
  {
  }

  /** The labels an entry contributes: its categories' labels when it is a post or a page. */
  function EntryTags(e: Entry): seq<string> {
    TagsOf(ProcessEntry(e))
  }

  /** The labels of the given entries, entry after entry, repeats kept. */
  function AllLabels(entries: seq<Entry>): seq<string> {
    if entries == [] then []
    else AllLabels(entries[..|entries| - 1]) + EntryTags(entries[|entries| - 1])
  }

  lemma {:induction false} AllLabelsSound(entries: seq<Entry>, t: string) returns (i: nat)
    requires t in AllLabels(entries)
    ensures i < |entries| && t in EntryTags(entries[i])
  {
    var init := entries[..|entries| - 1];
    if t in AllLabels(init) {
      i := AllLabelsSound(init, t);
      assert entries[i] == init[i];
    } else {
      i := |entries| - 1;
    }
  }

  lemma {:induction false} AllLabelsComplete(entries: seq<Entry>, t: string, i: nat)
    requires i < |entries| && t in EntryTags(entries[i])
    ensures t in AllLabels(entries)
  {
    var init := entries[..|entries| - 1];
    if i < |init| {
      assert entries[i] == init[i];
      AllLabelsComplete(init, t, i);
    }
  }

  lemma AllLabelsMember(entries: seq<Entry>, t: string)
    ensures t in AllLabels(entries) <==> exists i | 0 <= i < |entries| :: t in EntryTags(entries[i])
  {
    if t in AllLabels(entries) {
      var i := AllLabelsSound(entries, t);
    }
    if i :| 0 <= i < |entries| && t in EntryTags(entries[i]) {
      AllLabelsComplete(entries, t, i);
    }
  }

  /** The parse loop over well-formed entries, from empty data and zero counters. */
  function Accumulate(entries: seq<Entry>): Acc {
    if entries == [] then Acc(EmptyData, ZeroStats)
    else AddEntry(Accumulate(entries[..|entries| - 1]), ProcessEntry(entries[|entries| - 1]))
  }

  /**
   * After any run of the loop every counter equals the length of its list,
   * every entry was filed once, and the global tag list is duplicate-free and
   * holds exactly the labels of the entries.
   */
  lemma {:induction false} AccumulateConsistent(entries: seq<Entry>)
    ensures Consistent(Accumulate(entries))
    ensures forall t :: t in Accumulate(entries).data.tags <==> t in AllLabels(entries)
    ensures Entries(Accumulate(entries)) == |entries|
  {
    if entries != [] {
      AccumulateConsistent(entries[..|entries| - 1]);
      var d := ProcessEntry(entries[|entries| - 1]);
      assert TagsOf(d) == EntryTags(entries[|entries| - 1]);
      AddEntryConsistent(Accumulate(entries[..|entries| - 1]), d);
    }
  }

  lemma AccumulateSnoc(es: seq<Entry>, e: Entry)
    ensures Accumulate(es + [e]) == AddEntry(Accumulate(es), ProcessEntry(e))
  {
    assert (es + [e])[..|es|] == es;
  }

  /** The global tag list of a parse holds exactly the labels of its entries. */
  lemma AccumulateTags(entries: seq<Entry>, t: string)
    ensures t in Accumulate(entries).data.tags <==>
            exists i | 0 <= i < |entries| :: t in EntryTags(entries[i])
  {
    AccumulateConsistent(entries);
    AllLabelsMember(entries, t);
  }

  /* ---------------- comment relationships ---------------- */

  predicate HasId(cs: seq<CommentData>, x: string) {
    exists j | 0 <= j < |cs| :: cs[j].id == x
  }

  function Ids(cs: seq<CommentData>): set<string> {
    set j | 0 <= j < |cs| :: cs[j].id
  }

  /**
   * The inner foreach with break: the index of the first comment with the
   * given id, or the length of the list when none has it.
   */
  function FirstWithId(cs: seq<CommentData>, x: string): (j: nat)
    ensures j <= |cs| && forall k | 0 <= k < j :: cs[k].id != x
    ensures j < |cs| <==> HasId(cs, x)
    ensures j < |cs| ==> cs[j].id == x
  {
    if cs == [] then 0
    else if cs[0].id == x then 0
    else
      var j := 1 + FirstWithId(cs[1..], x);
      assert forall k | 1 <= k < |cs| :: cs[1..][k - 1] == cs[k];
      j
  }

  predicate SameIds(a: seq<CommentData>, b: seq<CommentData>) {
    |a| == |b| && forall k {:trigger a[k]} | 0 <= k < |a| :: a[k].id == b[k].id
  }

  /**
   * One iteration of the relationship loop on the current comment list: when
   * the reference is one of the ids collected before the loop, the first
   * comment with that id becomes the parent and lends its post id.
   */
  function ResolveStep(cs: seq<CommentData>, i: nat, ids: set<string>): (r: seq<CommentData>)
    requires i < |cs|
    ensures SameIds(r, cs)
    ensures forall k {:trigger r[k]} | 0 <= k < |cs| && k != i :: r[k] == cs[k]
  {
    var c := cs[i];
    if c.postId in ids then
      var j := FirstWithId(cs, c.postId);
      if j < |cs| then cs[i := c.(parentId := Some(cs[j].id), postId := cs[j].postId)]
      else cs
    else cs
  }

  /**
   * process_comment_relationships after its first n iterations: ids and
   * length are kept, and comments from index n on are untouched.
   */
  function ResolveUpTo(cs: seq<CommentData>, n: nat): (r: seq<CommentData>)
    requires n <= |cs|
    ensures SameIds(r, cs)
    ensures forall k {:trigger r[k]} | n <= k < |cs| :: r[k] == cs[k]
  {
    if n == 0 then cs
    else ResolveStep(ResolveUpTo(cs, n - 1), n - 1, Ids(cs))
  }

  function ResolveAll(cs: seq<CommentData>): seq<CommentData> {
    ResolveUpTo(cs, |cs|)
  }

  /** Once the loop has passed index k, later iterations leave comment k alone. */
  lemma {:induction false} ResolveFrozen(cs: seq<CommentData>, k: nat, n: nat)
    requires k < n <= |cs|
    ensures ResolveUpTo(cs, n)[k] == ResolveUpTo(cs, k + 1)[k]
    decreases n
  {
    if n > k + 1 {
      ResolveFrozen(cs, k, n - 1);
      ResolveUpToKeeps(cs, k, n);
    }
  }

  /** Iteration n - 1 of the loop changes no comment before index n - 1. */
  lemma ResolveUpToKeeps(cs: seq<CommentData>, k: nat, n: nat)
    requires k + 1 < n <= |cs|
    ensures ResolveUpTo(cs, n)[k] == ResolveUpTo(cs, n - 1)[k]
  {
  }

  /** The loop of process_comment_relationships, updating the list in place. */
  method ProcessCommentRelationships(comments: seq<CommentData>) returns (cs: seq<CommentData>)
    ensures cs == ResolveAll(comments)
  {
    var ids := Ids(comments);
    cs := comments;
    for i := 0 to |comments|
      invariant cs == ResolveUpTo(comments, i)
    {
      var c := cs[i];
      if c.postId in ids {
        var j := FindComment(cs, c.postId);
        if j < |cs| {
          cs := cs[i := c.(parentId := Some(cs[j].id), postId := cs[j].postId)];
        }
      }
    }
  }

  /** The inner foreach with break, as a loop over the current list. */
  method FindComment(cs: seq<CommentData>, x: string) returns (j: nat)
    ensures j == FirstWithId(cs, x)
  {
    j := 0;
    while j < |cs| && cs[j].id != x
      invariant j <= |cs|
      invariant forall k | 0 <= k < j :: cs[k].id != x
    {
      j := j + 1;
    }
    ghost var f := FirstWithId(cs, x);
    assert j == f;
  }

  /** A comment whose reference is no comment id keeps it as its post and has no parent. */
  lemma ResolveKeepsTopLevel(cs: seq<CommentData>, i: nat)
    requires i < |cs| && cs[i].postId !in Ids(cs)
    ensures ResolveAll(cs)[i] == cs[i]
  {
    ResolveFrozen(cs, i, |cs|);
  }

  /**
   * A comment whose reference is the id of comment j (the first such) gets
   * that id as parent and takes j's post id as it stands when the loop
   * reaches it: already resolved when j comes earlier, the raw reference
   * when j comes later.
   */
  lemma ResolveReply(cs: seq<CommentData>, i: nat)
    requires i < |cs| && cs[i].postId in Ids(cs)
    ensures var j := FirstWithId(cs, cs[i].postId);
      var r := ResolveAll(cs);
      j < |cs| &&
      r[i] == cs[i].(parentId := Some(cs[i].postId), postId := if j < i then r[j].postId else cs[j].postId)
  {
    var x := cs[i].postId;
    var before := ResolveUpTo(cs, i);
    SameIdsFirst(before, cs, x);
    assert HasId(cs, x);
    var j := FirstWithId(cs, x);
    ResolveAt(cs, i);
    ResolveFrozen(cs, i, |cs|);
    assert before[j].id == x;
    if j < i {
      ResolveFrozen(cs, j, i);
      ResolveFrozen(cs, j, |cs|);
    } else {
      assert before[j] == cs[j];
    }
  }

  /** Iteration i of the loop writes comment i from the list as the earlier iterations left it. */
  lemma ResolveAt(cs: seq<CommentData>, i: nat)
    requires i < |cs|
    ensures var before := ResolveUpTo(cs, i);
      var c := cs[i];
      var j := FirstWithId(before, c.postId);
      ResolveUpTo(cs, i + 1)[i] ==
        if c.postId in Ids(cs) && j < |before| then c.(parentId := Some(before[j].id), postId := before[j].postId)
        else c
  {
    assert ResolveUpTo(cs, i)[i] == cs[i];
  }

  /** Lists with the same ids position by position find the same first comment for any id. */
  lemma SameIdsFirst(a: seq<CommentData>, b: seq<CommentData>, x: string)
    requires SameIds(a, b)
    ensures FirstWithId(a, x) == FirstWithId(b, x)
  {
    assert forall k {:trigger b[k]} | 0 <= k < |b| :: a[k].id == b[k].id;
  }

  /**
   * In a three-level thread listed innermost first, the innermost reply is
   * resolved against its parent before that parent is resolved, and so keeps
   * a comment id as its post id.
   */
  lemma ResolveDeepThreadKeepsCommentId()
    ensures var cs := [Reply("c3", "c2"), Reply("c2", "c1"), Reply("c1", "post")];
            ResolveAll(cs)[0].postId == "c1" && "c1" in Ids(cs)
  {
    var cs := [Reply("c3", "c2"), Reply("c2", "c1"), Reply("c1", "post")];
    assert cs[1].id == "c2" && cs[2].id == "c1";
    assert cs[0].postId in Ids(cs);
    ResolveReply(cs, 0);
    assert FirstWithId(cs, "c2") == 1 by {
      assert cs[0].id != "c2";
    }
  }

  function Reply(id: string, ref: string): CommentData {
    CommentData(id, "", "", "", "", "", "", ref, None)
  }

  lemma ResolveKeepsIds(cs: seq<CommentData>)
    ensures |ResolveAll(cs)| == |cs|
    ensures forall k | 0 <= k < |cs| :: ResolveAll(cs)[k].id == cs[k].id
  {
  }

  /* ---------------- the parser object ---------------- */

  /** An <entry> element: loadable, or rejected by SimpleXMLElement with a message. */
  datatype XmlItem = WellFormed(entry: Entry) | Malformed(message: string)

  datatype XmlFile = Missing | Unreadable | Readable(items: seq<XmlItem>)

  datatype ParseOutput = ParseOutput(data: ParsedData, stats: Stats)

  function WellFormedPrefix(items: seq<XmlItem>): (n: nat)
    ensures n <= |items| && (forall k | 0 <= k < n :: items[k].WellFormed?)
    ensures n < |items| ==> items[n].Malformed?
  {
    if items == [] || items[0].Malformed? then 0
    else
      var n := WellFormedPrefix(items[1..]);
      assert forall k | 1 <= k <= n :: items[k] == items[1..][k - 1];
      1 + n
  }

  function EntriesOf(items: seq<XmlItem>): (es: seq<Entry>)
    requires forall k | 0 <= k < |items| :: items[k].WellFormed?
    ensures |es| == |items| && forall k | 0 <= k < |items| :: es[k] == items[k].entry
  {
    if items == [] then [] else [items[0].entry] + EntriesOf(items[1..])
  }

  lemma EntriesOfSnoc(items: seq<XmlItem>, i: nat)
    requires i < |items| && forall k | 0 <= k <= i :: items[k].WellFormed?
    ensures EntriesOf(items[..i + 1]) == EntriesOf(items[..i]) + [items[i].entry]
  {
    var a, b := EntriesOf(items[..i + 1]), EntriesOf(items[..i]) + [items[i].entry];
    forall k | 0 <= k < i + 1
      ensures a[k] == b[k]
    {
      assert items[..i + 1][k] == items[k];
      if k < i {
        assert items[..i][k] == items[k];
      }
    }
  }

  /** The parse loop over one more well-formed item is the loop so far followed by that entry. */
  lemma AccumulateItemsSnoc(items: seq<XmlItem>, i: nat)
    requires i < |items| && forall k | 0 <= k <= i :: items[k].WellFormed?
    ensures Accumulate(EntriesOf(items[..i + 1])) ==
            AddEntry(Accumulate(EntriesOf(items[..i])), ProcessEntry(items[i].entry))
  {
    EntriesOfSnoc(items, i);
    AccumulateSnoc(EntriesOf(items[..i]), items[i].entry);
  }

  class Parser {
    const xmlFile: XmlFile
    var errors: seq<string>
    var stats: Stats

    constructor (file: XmlFile)
      ensures xmlFile == file && errors == [] && stats == ZeroStats
    {
      xmlFile := file;
      errors := [];
      stats := ZeroStats;
    }

    /**
     * parse(): a missing or unreadable file is reported before anything is
     * read; otherwise the entries are processed in order until one fails to
     * load. The counters live on the object and keep what earlier calls added.
     */
    method Parse() returns (r: Result<ParseOutput>)
      modifies this
      ensures xmlFile.Missing? ==>
        r == Err("file_not_found") && stats == old(stats) && errors == old(errors) + ["XML file not found."]
      ensures xmlFile.Unreadable? ==>
        r == Err("file_not_readable") && stats == old(stats) && errors == old(errors) + ["XML file is not readable."]
      ensures xmlFile.Readable? ==>
        var items := xmlFile.items;
        var n := WellFormedPrefix(items);
        var acc := Accumulate(EntriesOf(items[..n]));
        stats == AddStats(old(stats), acc.stats) &&
        (n < |items| ==> r == Err("xml_parse_error") && errors == old(errors) + [items[n].message]) &&
        (n == |items| ==>
           errors == old(errors) &&
           r == Ok(ParseOutput(acc.data.(comments := ResolveAll(acc.data.comments)), stats)))
    {
      if xmlFile.Missing? {
        errors := errors + ["XML file not found."];
        return Err("file_not_found");
      }
      if xmlFile.Unreadable? {
        errors := errors + ["XML file is not readable."];
        return Err("file_not_readable");
      }
      var items := xmlFile.items;
      var data, ok := LoadEntries(items);
      if !ok {
        return Err("xml_parse_error");
      }
      assert items[..|items|] == items;
      var comments := ProcessCommentRelationships(data.comments);
      data := data.(comments := comments);
      return Ok(ParseOutput(data, stats));
    }

    /**
     * The entry loop of parse(): entries are filed in order; the first one
     * that fails to load stops the loop with its message recorded.
     */
    method LoadEntries(items: seq<XmlItem>) returns (data: ParsedData, ok: bool)
      modifies this
      ensures var n := WellFormedPrefix(items);
        var acc := Accumulate(EntriesOf(items[..n]));
        ok == (n == |items|) && data == acc.data && stats == AddStats(old(stats), acc.stats) &&
        errors == old(errors) + (if ok then [] else [items[n].message])
    {
      ghost var n := WellFormedPrefix(items);
      data := EmptyData;
      ghost var counted := ZeroStats;
      var i := 0;
      while i < |items|
        invariant 0 <= i <= n
        invariant forall k | 0 <= k < i :: items[k].WellFormed?
        invariant Acc(data, counted) == Accumulate(EntriesOf(items[..i]))
        invariant stats == AddStats(old(stats), counted) && errors == old(errors)
      {
        if items[i].Malformed? {
          assert i == n;
          errors := errors + [items[i].message];
          return data, false;
        }
        var d := ProcessEntry(items[i].entry);
        data, counted := AddToData(data, d, old(stats), counted);
        AccumulateItemsSnoc(items, i);
        i := i + 1;
      }
      return data, true;
    }

    /** The body of the entry loop: file the entry by type, then collect its tags and media URLs. */
    method AddToData(data: ParsedData, d: EntryData, ghost base: Stats, ghost counted: Stats)
      returns (data': ParsedData, ghost counted': Stats)
      requires stats == AddStats(base, counted)
      modifies this
      ensures Acc(data', counted') == AddEntry(Acc(data, counted), d)
      ensures stats == AddStats(base, counted') && errors == old(errors)
    {
      data', counted' := data, counted;
      match d {
        case ContentEntry(c) =>
          if c.kind == PostType {
            data' := data'.(posts := data'.posts + [c]);
            stats := stats.(posts := stats.posts + 1);
            counted' := counted'.(posts := counted'.posts + 1);
          } else if c.kind == PageType {
            data' := data'.(pages := data'.pages + [c]);
            stats := stats.(pages := stats.pages + 1);
            counted' := counted'.(pages := counted'.pages + 1);
          }
        case CommentEntry(m) =>
          data' := data'.(comments := data'.comments + [m]);
          stats := stats.(comments := stats.comments + 1);
          counted' := counted'.(comments := counted'.comments + 1);
      }
      var tags, added := CollectTags(data'.tags, TagsOf(d));
      data' := data'.(tags := tags);
      stats := stats.(tags := stats.tags + added);
      counted' := counted'.(tags := counted'.tags + added);
      data' := data'.(mediaUrls := data'.mediaUrls + MediaOf(d));
      stats := stats.(media := stats.media + |MediaOf(d)|);
      counted' := counted'.(media := counted'.media + |MediaOf(d)|);
    }
  }

  /**
   * bio_parse_blogger_xml: a fresh parser per call, so the counters
   * describe this file alone and match the lengths of the returned lists.
   * The result depends on the file only, so parsing the same file twice
   * gives the same answer.
   */
  method ParseBloggerXml(file: XmlFile) returns (r: Result<ParseOutput>)
    ensures file.Missing? ==> r == Err("file_not_found")
    ensures file.Unreadable? ==> r == Err("file_not_readable")
    ensures r.Ok? ==> file.Readable? && forall k | 0 <= k < |file.items| :: file.items[k].WellFormed?
    ensures r.Ok? ==>
      var o := r.value;
      o.stats.posts == |o.data.posts| && o.stats.pages == |o.data.pages| &&
      o.stats.comments == |o.data.comments| && o.stats.tags == |o.data.tags| &&
      o.stats.media == |o.data.mediaUrls| && NoDup(o.data.tags)
    ensures file.Readable? ==>
      var n := WellFormedPrefix(file.items);
      var acc := Accumulate(EntriesOf(file.items[..n]));
      (n < |file.items| ==> r == Err("xml_parse_error")) &&
      (n == |file.items| ==>
         r == Ok(ParseOutput(acc.data.(comments := ResolveAll(acc.data.comments)), AddStats(ZeroStats, acc.stats))))
  {
    var p := new Parser(file);
    r := p.Parse();
    if r.Ok? {
      ghost var n := WellFormedPrefix(file.items);
      OutputConsistent(EntriesOf(file.items[..n]), r.value, p.stats);
    }
  }

  /**
   * A fresh parser's successful output: its counters are those of the
   * accumulation, which match the lengths of the lists.
   */
  lemma OutputConsistent(entries: seq<Entry>, o: ParseOutput, st: Stats)
    requires st == AddStats(ZeroStats, Accumulate(entries).stats)
    requires o == ParseOutput(Accumulate(entries).data.(comments := ResolveAll(Accumulate(entries).data.comments)), st)
    ensures o.stats.posts == |o.data.posts| && o.stats.pages == |o.data.pages| &&
      o.stats.comments == |o.data.comments| && o.stats.tags == |o.data.tags| &&
      o.stats.media == |o.data.mediaUrls| && NoDup(o.data.tags)
  {
    AccumulateConsistent(entries);
    ResolveKeepsIds(Accumulate(entries).data.comments);
  }
}
