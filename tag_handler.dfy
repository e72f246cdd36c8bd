/**
 * Label import (includes/tag-handler.php): every label of a post becomes a
 * post_tag term, reused when a term of that name exists and inserted
 * otherwise, and the post gets the terms in append mode.
 */
module TagHandler {
  import opened Wrappers
  import opened PhpString
  import Utils

  /** wp_insert_term for a post_tag: the new term id, or None on an error. */
  datatype TagEnv = TagEnv(insertTerm: string -> Option<nat>)

  /** The post_tag terms by name and the tag ids attached to each post. */
  datatype TermState = TermState(terms: map<string, nat>, postTags: map<nat, set<nat>>)

  /** What happened to one label. */
  datatype TagOutcome = Blank | Reused(id: nat) | Inserted(id: nat) | InsertFailed

  datatype TagResults = TagResults(added: nat, failed: nat)

  /** The name a label is looked up under: trimmed, then with its "uXXXX" escapes repaired. */
  function TagName(tag: string): string {
    Utils.FixEncoding(Trim(tag))
  }

  /** One label against the term table. */
  function StepTag(env: TagEnv, tag: string, terms: map<string, nat>): (res: (TagOutcome, map<string, nat>))
    ensures res.0.Blank? <==> !Truthy(TagName(tag))
    ensures Truthy(TagName(tag)) && TagName(tag) in terms ==> res == (Reused(terms[TagName(tag)]), terms)
  {
    var name := TagName(tag);
    if !Truthy(name) then (Blank, terms)
    else if name in terms then (Reused(terms[name]), terms)
    else match env.insertTerm(name)
      case None => (InsertFailed, terms)
      case Some(id) => (Inserted(id), terms[name := id])
  }

  /** The outcomes of the loop over tags and the term table afterwards. */
  function RunTags(env: TagEnv, tags: seq<string>, terms: map<string, nat>): (res: (seq<TagOutcome>, map<string, nat>))
    ensures |res.0| == |tags|
    ensures terms.Keys <= res.1.Keys
    decreases |tags|
  {
    if tags == [] then ([], terms)
    else
      var (os, t) := RunTags(env, tags[..|tags| - 1], terms);
      var (o, t') := StepTag(env, tags[|tags| - 1], t);
      (os + [o], t')
  }

  /** One more label: the loop over tags[..i + 1] is the loop over tags[..i] followed by one step. */
  lemma RunTagsSnoc(env: TagEnv, tags: seq<string>, i: nat, terms: map<string, nat>)
    requires i < |tags|
    ensures var prev := RunTags(env, tags[..i], terms);
      var step := StepTag(env, tags[i], prev.1);
      RunTags(env, tags[..i + 1], terms) == (prev.0 + [step.0], step.1)
  {
    var t := tags[..i + 1];
    assert t[..|t| - 1] == tags[..i] && t[|t| - 1] == tags[i];
  }

  /** term_ids: the ids of reused and inserted terms, in label order. */
  function TermIds(os: seq<TagOutcome>): seq<nat> {
    if os == [] then []
    else
      var o := os[|os| - 1];
      TermIds(os[..|os| - 1]) + (if o.Reused? || o.Inserted? then [o.id] else [])
  }

  function CountFailed(os: seq<TagOutcome>): nat {
    if os == [] then 0 else CountFailed(os[..|os| - 1]) + (if os[|os| - 1].InsertFailed? then 1 else 0)
  }

  /** One more outcome adds its id, when it has one, to the term ids and its failure, if any, to the count. */
  lemma TagCountsSnoc(os: seq<TagOutcome>, o: TagOutcome)
    ensures TermIds(os + [o]) == TermIds(os) + (if o.Reused? || o.Inserted? then [o.id] else [])
    ensures CountFailed(os + [o]) == CountFailed(os) + (if o.InsertFailed? then 1 else 0)
  {
    assert (os + [o])[..|os|] == os;
  }

  function CountBlank(os: seq<TagOutcome>): nat {
    if os == [] then 0 else CountBlank(os[..|os| - 1]) + (if os[|os| - 1].Blank? then 1 else 0)
  }

  /** Every label is blank, added or failed: added + failed + blank == |tags|, so added + failed <= |tags|. */
  lemma {:induction false} TagOutcomesPartition(os: seq<TagOutcome>)
    ensures |TermIds(os)| + CountFailed(os) + CountBlank(os) == |os|
  {
    if os != [] {
      TagOutcomesPartition(os[..|os| - 1]);
    }
  }

  /** A label whose name is already a term reuses that term wherever it appears, and nothing is inserted for it. */
  lemma {:induction false} KnownTagReused(env: TagEnv, tags: seq<string>, terms: map<string, nat>, k: nat)
    requires k < |tags| && Truthy(TagName(tags[k])) && TagName(tags[k]) in terms
    ensures RunTags(env, tags, terms).0[k].Reused?
  {
    var n := |tags| - 1;
    var prev := RunTags(env, tags[..n], terms);
    var step := StepTag(env, tags[n], prev.1);
    RunTagsSnoc(env, tags, n, terms);
    assert tags[..n + 1] == tags;
    assert RunTags(env, tags, terms).0 == prev.0 + [step.0];
    if k < n {
      KnownTagReused(env, tags[..n], terms, k);
      assert tags[..n][k] == tags[k];
      assert prev.0[k].Reused?;
    } else {
      assert TagName(tags[n]) in prev.1;
      assert step.0.Reused?;
    }
  }

  /** import_tags: the results and the terms afterwards. */
  function ImportTagsSpec(env: TagEnv, postId: nat, tags: seq<string>, st: TermState): (TagResults, TermState) {
    if tags == [] || postId == 0 then (TagResults(0, 0), st)
    else
      var (os, terms) := RunTags(env, tags, st.terms);
      var ids := TermIds(os);
      var prior := if postId in st.postTags then st.postTags[postId] else {};
      var postTags := if ids != [] then st.postTags[postId := prior + set i | i in ids] else st.postTags;
      (TagResults(|ids|, CountFailed(os)), TermState(terms, postTags))
  }

  /** The counts of import_tags: added is the number of term ids, and added + failed never exceeds the label count. */
  lemma ImportTagsCounts(env: TagEnv, postId: nat, tags: seq<string>, st: TermState)
    ensures var r := ImportTagsSpec(env, postId, tags, st).0; r.added + r.failed <= |tags|
    ensures tags == [] || postId == 0 ==>
      ImportTagsSpec(env, postId, tags, st) == (TagResults(0, 0), st)
    ensures tags != [] && postId != 0 ==>
      ImportTagsSpec(env, postId, tags, st).0.added == |TermIds(RunTags(env, tags, st.terms).0)|
  {
    if tags != [] && postId != 0 {
      TagOutcomesPartition(RunTags(env, tags, st.terms).0);
    }
  }

  /** should_import_tag: false exactly for a label that is empty after trimming ("" or "0"). */
  function ShouldImportTag(tag: string): (b: bool)
    ensures b <==> Truthy(Trim(tag))
  {
    if !Truthy(Trim(tag)) then false else true
  }

  /** A label without "uXXXX" escapes is skipped by import_tags exactly when should_import_tag rejects it. */
  lemma ShouldImportTagAgrees(env: TagEnv, tag: string, terms: map<string, nat>)
    requires !Utils.HasEscape(Trim(tag))
    ensures StepTag(env, tag, terms).0.Blank? <==> !ShouldImportTag(tag)
  {
  }

  /** A label that trims to "u0030" passes should_import_tag but repairs to "0", which import_tags skips. */
  lemma ShouldImportTagEscapeGap(env: TagEnv, terms: map<string, nat>)
    ensures ShouldImportTag("u0030") && StepTag(env, "u0030", terms).0.Blank?
  {
    TrimKeepsEscape();
    EscapeRepairsToZero();
    assert TagName("u0030") == "0";
  }

  lemma TrimKeepsEscape()
    ensures Trim("u0030") == "u0030"
  {
    var t := "u0030";
    assert t[0] == 'u' && t[|t| - 1] == '0';
    TrimUntouched(t);
  }

  lemma EscapeRepairsToZero()
    ensures Utils.FixEncoding("u0030") == "0"
  {
    var t := "u0030";
    assert Utils.EscapeAt(t);
    assert Utils.HasEscape(t) by { assert t[0..] == t; }
    assert Utils.CodeUnit(t) == 0x30 by {
      assert Utils.HexValue(t[1]) == 0 && Utils.HexValue(t[2]) == 0;
      assert Utils.HexValue(t[3]) == 3 && Utils.HexValue(t[4]) == 0;
    }
    assert Utils.CodeUnitChar(0x30) == '0';
    assert t[5..] == [];
  }

  /** The term table and post tags as mutable state. */
  class TagStore {
    var terms: map<string, nat>
    var postTags: map<nat, set<nat>>

    constructor(terms: map<string, nat>, postTags: map<nat, set<nat>>)
      ensures this.terms == terms && this.postTags == postTags
    {
      this.terms := terms;
      this.postTags := postTags;
    }

    function Snapshot(): TermState
      reads this
    {
      TermState(terms, postTags)
    }

    /** One label of the loop: skipped when blank, an existing term reused, otherwise a term inserted. */
    method ImportTag(env: TagEnv, tag: string) returns (o: TagOutcome)
      modifies this
      ensures (o, terms) == StepTag(env, tag, old(terms))
      ensures postTags == old(postTags)
    {
      var name := TagName(tag);
      if !Truthy(name) {
        return Blank;
      }
      if name in terms {
        return Reused(terms[name]);
      }
      var inserted := env.insertTerm(name);
      if inserted.None? {
        return InsertFailed;
      }
      terms := terms[name := inserted.value];
      o := Inserted(inserted.value);
    }

    /** One turn of the loop in import_tags: the run over tags[..i] grows by the outcome of tags[i]. */
    method TagStep(env: TagEnv, tags: seq<string>, i: nat, ghost start: map<string, nat>, ghost os: seq<TagOutcome>,
                   termIds: seq<nat>, added: nat, failed: nat)
      returns (ghost os': seq<TagOutcome>, termIds': seq<nat>, added': nat, failed': nat)
      requires i < |tags|
      requires os == RunTags(env, tags[..i], start).0 && terms == RunTags(env, tags[..i], start).1
      requires termIds == TermIds(os) && added == |termIds| && failed == CountFailed(os)
      modifies this
      ensures os' == RunTags(env, tags[..i + 1], start).0 && terms == RunTags(env, tags[..i + 1], start).1
      ensures termIds' == TermIds(os') && added' == |termIds'| && failed' == CountFailed(os')
      ensures postTags == old(postTags)
    {
      RunTagsSnoc(env, tags, i, start);
      var o := ImportTag(env, tags[i]);
      os' := os + [o];
      TagCountsSnoc(os, o);
      termIds', added', failed' := termIds, added, failed;
      if o.Reused? || o.Inserted? {
        termIds' := termIds + [o.id];
        added' := added + 1;
      } else if o.InsertFailed? {
        failed' := failed + 1;
      }
    }

    /** The foreach of import_tags: the term ids found and the count of failed inserts, in label order. */
    method TagLoop(env: TagEnv, tags: seq<string>) returns (termIds: seq<nat>, added: nat, failed: nat)
      modifies this
      ensures var run := RunTags(env, tags, old(terms));
        terms == run.1 && termIds == TermIds(run.0) && added == |termIds| && failed == CountFailed(run.0)
      ensures postTags == old(postTags)
    {
      ghost var start := terms;
      ghost var os: seq<TagOutcome> := [];
      termIds, added, failed := [], 0, 0;
      var i := 0;
      while i < |tags|
        invariant 0 <= i <= |tags|
        invariant os == RunTags(env, tags[..i], start).0
        invariant terms == RunTags(env, tags[..i], start).1
        invariant postTags == old(postTags)
        invariant termIds == TermIds(os) && added == |termIds| && failed == CountFailed(os)
      {
        os, termIds, added, failed := TagStep(env, tags, i, start, os, termIds, added, failed);
        i := i + 1;
      }
      assert tags[..i] == tags;
    }

    /** import_tags: one pass over the labels, then wp_set_post_tags in append mode when some term was found. */
    method ImportTags(env: TagEnv, postId: nat, tags: seq<string>) returns (r: TagResults)
      modifies this
      ensures (r, Snapshot()) == ImportTagsSpec(env, postId, tags, old(Snapshot()))
    {
      if tags == [] || postId == 0 {
        return TagResults(0, 0);
      }
      var termIds, added, failed := TagLoop(env, tags);
      if termIds != [] {
        var prior := if postId in postTags then postTags[postId] else {};
        postTags := postTags[postId := prior + set k | k in termIds];
      }
      r := TagResults(added, failed);
    }
  }
}
