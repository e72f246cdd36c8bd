# Blogger Importer: a verified model of the import core

This project models the core of a WordPress plugin that imports a Blogger
export (an Atom feed) into WordPress:

- the reader of the export file, which classifies each `<entry>` as a post, a
  page or a comment, extracts statuses, labels and media URLs, collects the
  statistics of a parse and threads the comments;
- the converter that turns post HTML into Gutenberg blocks;
- the bookkeeping loops that import comments, posts, labels and media, each
  sorting every item into exactly one of skipped, imported or failed while
  keeping a Blogger-id to WordPress-id map;
- the per-operation retry counter, the error log, the id-mapping store and the
  progress transient;
- the string helpers: unique slugs, the repair of `uXXXX` sequences, Google
  image-URL rewriting, content-type and file-signature extensions.

Every WordPress, file-system and network call is a parameter. Each such
parameter is a function field of an environment datatype, or a `map` the model
reads and updates. Examples: `wp_insert_comment`, `wp_insert_post`, `get_term_by`
with `wp_insert_term`, `wp_kses_post`, `saveHTML`, `serialize_blocks`,
`sanitize_title`, `filter_var`, the media download and `attachment_url_to_postid`.
The stateful parts of the source are classes whose methods are proved equal to
specification functions on a snapshot of the state, for example
`ensures (r, Snapshot()) == ImportCommentsSpec(env, cs, wpPostId, old(Snapshot()))`.
The properties the source promises are lemmas about those functions.

PHP semantics are written out where they matter:

- `Truthy` is PHP's boolean reading of a string: `""` and `"0"` are false.
- An id lookup feeding `if ($existing_id)` treats a stored 0 as absent.
- `trim` strips PHP's default character set.
- `str_ireplace` and `stripos` compare with ASCII case folding.
- The regular expressions are hand-coded for the few patterns the code uses:
  - `u[0-9a-fA-F]{4}`
  - `=s\d+(-c)?` and `=w\d+(-h\d+)?(-c)?`
  - `/s\d{2,4}/`
  - `<p>\s*<\/p>`
  - the two lazy `<div ...>.*?<\/div>` patterns
- File bytes are characters below 256.

The input is an Atom feed. The model follows how the code reads it:

- The kind category is found by its `scheme` and `term` attributes (section 4.2.2 of RFC 4287).
- The permalink is the first `rel="alternate"` link (section 4.2.7.2 of RFC 4287).
- A comment is marked by `thr:in-reply-to ref="..."` (section 3 of RFC 4685).
- The PNG signature comes from section 3.1 of RFC 2083.

Modules and files:

| module | file |
|---|---|
| `Wrappers` | wrappers.dfy |
| `PhpString` | php_string.dfy |
| `PhpArray` | php_array.dfy |
| `Url` | url.dfy |
| `Dom` | dom.dfy |
| `Utils` | utils.dfy |
| `XmlParser` | xml_parser.dfy |
| `BlockConverter` | block_converter.dfy |
| `MediaHandler` | media_handler.dfy |
| `ErrorHandler` | error_handler.dfy |
| `DbHandler` | db_handler.dfy |
| `TagHandler` | tag_handler.dfy |
| `CommentImporter` | comment_importer.dfy |
| `PostImporter` | post_importer.dfy |

Where the behaviour of the code differs from what its comments or its users
might expect, the model follows the code. Each such case is a lemma:

- `XmlParser.ResolveDeepThreadKeepsCommentId`: the single pass can leave a
  comment id as a reply's post id.
- `TagHandler.ShouldImportTagEscapeGap`: `should_import_tag` and `import_tags`
  disagree on the label `u0030`.
- `PostImporter.FalseInsertCountsAsImported`: an insert that always throws
  counts as imported with id 0.
- `BlockConverter.FigureChild`: a figure whose image has no src yields a PHP
  `false` "block".

## Model

| member | source | states |
|---|---|---|
| DbHandler.ProgressRoundTrip | includes/db-handler.php:26-46 | after update_import_progress(p) the progress read back is p, after delete it is false, and an update changes nothing but the progress |
| DbHandler.WpPostIdFromBloggerId | includes/db-handler.php:75-79 | a WordPress id is returned exactly when the Blogger id has an entry in the post-mapping option |
| DbHandler.PostMappingStoreLookup | includes/db-handler.php:56-79 | a stored post mapping is found again; storing for one Blogger id leaves the lookup of every other id and the comment mappings unchanged; the post meta is written for a real post id and left alone for id 0 |
| DbHandler.PostMappingOverwrite | includes/db-handler.php:61-66 | storing twice for the same Blogger id leaves the same option as storing only the second mapping |
| DbHandler.WpCommentIdFromBloggerId | includes/db-handler.php:115-119 | a comment id is returned exactly when the Blogger id has an entry in the comment-mapping option |
| DbHandler.CommentMappingStoreLookup | includes/db-handler.php:100-119 | a stored comment mapping is found again, other Blogger ids keep their answer and post mappings are untouched; the comment meta is written for a real comment id and left alone for id 0 |
| DbHandler.LogErrorKeepsLatest | includes/db-handler.php:191-205 | the log holds min(old length + 1, 100) entries: the newest last, preceded by the most recent old entries in their order; nothing but the log changes |
| DbHandler.LogErrorAppends | includes/db-handler.php:191-205 | below 100 entries nothing is dropped: the new entry is appended |
| DbHandler.ClearErrorsEmpties | includes/db-handler.php:212-223 | after clear_errors get_errors is empty, and the next logged error is then the only entry |
| DbHandler.Database.constructor | includes/db-handler.php:35-37 | a fresh store has no progress, no mappings, no meta and no errors, the defaults the getters fall back to |
| DbHandler.Database.UpdateImportProgressOp | includes/db-handler.php:26-28 | the transient is set to the progress, nothing else changes |
| DbHandler.Database.DeleteImportProgressOp | includes/db-handler.php:44-46 | the transient is deleted, nothing else changes |
| DbHandler.Database.StorePostMappingOp | includes/db-handler.php:56-67 | the post's two meta values (none for id 0) and the option entry are written, nothing else changes |
| DbHandler.Database.StoreCommentMappingOp | includes/db-handler.php:100-107 | the comment's meta value (none for id 0) and the option entry are written, nothing else changes |
| DbHandler.Database.LogErrorOp | includes/db-handler.php:191-205 | the error log becomes the old log plus the entry, cut to its last 100 |
| DbHandler.Database.ClearErrorsOp | includes/db-handler.php:221-223 | the error log is emptied, nothing else changes |
| ErrorHandler.RetrySpec | includes/error-handler.php:112-162 | the loop calls the callback at most 3 - count times; it stops at the first value and resets the counter to 0; if no call in the budget gives a value the result is false and the counter stands at 3 |
| ErrorHandler.RetryFirstValue | includes/error-handler.php:112-121 | when call j (within the budget) is the first to give a value, the result is that value, the counter is 0 and exactly j + 1 calls were made |
| ErrorHandler.RetryExhaustedBlocks | includes/error-handler.php:157-162 | once every attempt of a key failed the result is false, and a later run for that key returns false without calling its callback at all |
| ErrorHandler.RetryUnfold | includes/error-handler.php:112-154 | one turn of the loop: a value ends it, false or an exception moves on with the counter one higher |
| ErrorHandler.OperationKeyShared | includes/error-handler.php:107-162 | two calls with the same non-empty operation id count under one key whatever their derived ids, so once one run has failed every attempt a later run under that id gives false without calling its callback; without an operation id two calls share a counter exactly when their derived keys are equal |
| ErrorHandler.RetryCounter.constructor | includes/error-handler.php:31 | the retry-count dictionary starts empty |
| ErrorHandler.RetryCounter.CanRetry | includes/error-handler.php:61-68 | a missing counter is created at 0, and the answer is true exactly when the counter is below 3 |
| ErrorHandler.RetryCounter.IncrementRetry | includes/error-handler.php:76-84 | the key's counter becomes its old value + 1, which is returned; other keys are untouched |
| ErrorHandler.RetryCounter.ResetRetry | includes/error-handler.php:92-94 | the key's counter becomes 0; other keys are untouched |
| ErrorHandler.RetryCounter.ExecuteWithRetry | includes/error-handler.php:105-163 | the result and the key's new counter are those of the retry loop from the key's old counter (see RetrySpec); only that key's counter changes |
| TagHandler.StepTag | includes/tag-handler.php:46-79 | a label that is empty after trimming and repair is skipped; a label whose name is a term reuses that term and inserts nothing |
| TagHandler.RunTags | includes/tag-handler.php:45-80 | one outcome per label, and the loop never removes a term |
| TagHandler.RunTagsSnoc | includes/tag-handler.php:45-80 | the loop over one more label is the loop so far followed by one step |
| TagHandler.TagCountsSnoc | includes/tag-handler.php:62-79 | one more label adds its term id, if it has one, to term_ids, and its failure, if any, to the failed count |
| TagHandler.TagOutcomesPartition | includes/tag-handler.php:43-79 | every label is exactly one of added, failed and skipped |
| TagHandler.KnownTagReused | includes/tag-handler.php:60-79 | a label whose name already is a term is reused wherever it appears in the list |
| TagHandler.ImportTagsCounts | includes/tag-handler.php:26-97 | an empty label list or post id returns {0, 0} and changes nothing; otherwise added is the number of term ids; always added + failed is at most the number of labels |
| TagHandler.ShouldImportTag | includes/tag-handler.php:140-148 | true exactly when the trimmed label is neither "" nor "0" |
| TagHandler.ShouldImportTagAgrees | includes/tag-handler.php:140-148 | for a label without uXXXX sequences, import_tags skips it exactly when should_import_tag rejects it |
| TagHandler.ShouldImportTagEscapeGap | includes/tag-handler.php:140-148 | the label "u0030" passes should_import_tag, yet import_tags skips it because it repairs to "0" |
| TagHandler.TagStore.ImportTag | includes/tag-handler.php:46-79 | one label against the term table, as StepTag; post tags are untouched |
| TagHandler.TagStore.TagStep | includes/tag-handler.php:45-80 | one loop turn: the run over the first i labels grows by label i, and term_ids, added and failed follow it |
| TagHandler.TagStore.TagLoop | includes/tag-handler.php:45-80 | the foreach gives the term ids of the run in label order, added == their number, and failed counts the failed inserts |
| TagHandler.TagStore.ImportTags | includes/tag-handler.php:26-97 | the counts and the new terms and post tags are those of the import_tags specification |
| CommentImporter.ImportCommentFacts | includes/comment-importer.php:26-88 | a mapped comment returns its stored id and changes nothing; an insert that fails changes nothing; a successful insert (id other than 0) stores the mapping and the new comment before returning |
| CommentImporter.ImportCommentKeepsKnown | includes/comment-importer.php:26-88 | importing one comment never changes the id of another Blogger id that is already mapped |
| CommentImporter.PassStep | includes/comment-importer.php:112-153 | each turn of the first loop adds exactly one outcome |
| CommentImporter.FirstPass | includes/comment-importer.php:112-153 | the first pass has one outcome per comment |
| CommentImporter.FirstPassSnoc | includes/comment-importer.php:112-153 | the pass over one more comment is the pass so far followed by one import_comment |
| CommentImporter.FirstPassAt | includes/comment-importer.php:112-153 | comment k's outcome is decided by the state that the comments before it left |
| CommentImporter.KnownPersists | includes/comment-importer.php:112-153 | a Blogger id that is mapped at some point of the pass stays mapped to the same id to its end |
| CommentImporter.KnownCommentSkipped | includes/comment-importer.php:134-139 | a comment mapped before the run is skipped with its stored id wherever it appears, so it is not inserted again |
| CommentImporter.DuplicateSkipped | includes/comment-importer.php:134-150 | a comment listed twice is inserted at most once: after its first copy was skipped or imported, a later copy is skipped with that id |
| CommentImporter.IdMapStored | includes/comment-importer.php:137-149 | every entry of comment_id_map agrees with the stored mapping |
| CommentImporter.IdMapKeys | includes/comment-importer.php:137-149 | after pass one comment_id_map holds exactly the Blogger ids of the skipped and imported comments |
| CommentImporter.OutcomesPartition | includes/comment-importer.php:112-153 | every comment is in exactly one of success, failed and skipped |
| CommentImporter.ParentUpdate | includes/comment-importer.php:181-194 | an update is made exactly when the comment is mapped, its parent_id is non-empty and the parent is mapped; it sets the parent's mapped id |
| CommentImporter.SetParent | includes/comment-importer.php:186-194 | wp_update_comment never adds or removes comments |
| CommentImporter.Relink | includes/comment-importer.php:157-195 | the second pass never adds or removes comments |
| CommentImporter.RelinkSnoc | includes/comment-importer.php:157-195 | the second pass over one more comment is the pass so far followed by that comment's update |
| CommentImporter.RelinkKeepsFields | includes/comment-importer.php:186-194 | the second pass changes only parents: every other field of every comment is kept |
| CommentImporter.RelinkUntouched | includes/comment-importer.php:157-195 | a comment that no update targets keeps its parent |
| CommentImporter.RelinkLast | includes/comment-importer.php:157-195 | the last update targeting a comment decides its parent: the mapped id of that comment's parent |
| CommentImporter.ImportCommentsCounts | includes/comment-importer.php:98-198 | total is the number of comments and success + failed + skipped == total |
| CommentImporter.PostIds | includes/comment-importer.php:217-227 | the Blogger post id of each comment, in order |
| CommentImporter.WithPost | includes/comment-importer.php:217-227 | a post's group holds only comments of that post, and no more than there are |
| CommentImporter.GroupsPartition | includes/comment-importer.php:216-227 | the groups of the distinct post ids add up to all the comments: grouping loses and duplicates nothing |
| CommentImporter.PostTarget | includes/comment-importer.php:237-238 | the WordPress post of a group is the given post mapping's entry first, then the stored mapping, else 0 (none) |
| CommentImporter.ImportGroupsCounts | includes/comment-importer.php:233-271 | over the groups of the given keys, success + failed + skipped equals the sum of the groups' sizes, with an unknown post failing its whole group |
| CommentImporter.ImportAllCounts | includes/comment-importer.php:208-274 | over all posts every comment is counted once: success + failed + skipped == total == the number of comments |
| CommentImporter.CommentStore.ImportComment | includes/comment-importer.php:26-88 | the outcome and the new mappings and comments table are those of the import_comment specification |
| CommentImporter.CommentStore.FirstPassLoop | includes/comment-importer.php:112-153 | the first loop's outcomes, comment_id_map and new state are those of the first-pass specification |
| CommentImporter.CommentStore.RelinkLoop | includes/comment-importer.php:157-195 | the second loop's comments table is that of the second-pass specification, with the mappings untouched |
| CommentImporter.CommentStore.ImportComments | includes/comment-importer.php:98-198 | the results and the state after both passes are those of the import_comments specification |
| CommentImporter.CommentStore.ImportGroup | includes/comment-importer.php:233-271 | one post's comments are imported when the post is known and all counted failed otherwise, as the group step specifies |
| CommentImporter.CommentStore.ImportAllComments | includes/comment-importer.php:208-274 | the results and the state are those of the import_all_comments specification |
| CommentImporter.GroupMapSpec | includes/comment-importer.php:217-227 | comments_by_post has a group for exactly the post ids that occur, and each group is that post's comments in input order |
| CommentImporter.GroupKeysUnique | includes/comment-importer.php:217-227 | the groups come in order of each post id's first occurrence, as array_unique would give |
| CommentImporter.GroupMapKeys | includes/comment-importer.php:217-227 | the map has a group for exactly the listed keys |
| CommentImporter.GroupByPost | includes/comment-importer.php:217-227 | the grouping loop builds the keys in first-seen order and the map of comments by post |
| PostImporter.PostTypeOf | includes/post-importer.php:27 | the post type is "page" exactly for an entry of type page, "post" otherwise |
| PostImporter.ImportPostFacts | includes/post-importer.php:25-98 | a mapped entry returns its id and changes nothing; a WP_Error changes nothing; otherwise the mapping is stored, the meta too unless the id is 0, a created post is in the table, and labels are imported only when there are any |
| PostImporter.NewPostSlugFresh | includes/post-importer.php:43 | the new post's slug differs from that of every post of the same type that has a slug |
| PostImporter.FalseInsertCountsAsImported | includes/post-importer.php:65-82 | an insert whose every attempt threw gives false, which is no WP_Error: the entry counts as imported with id 0, remains unmapped and gets no post meta |
| PostImporter.ImportPostKeepsKnown | includes/post-importer.php:25-98 | importing one entry never changes the id of another Blogger id that is already mapped |
| PostImporter.PostStep | includes/post-importer.php:136-151 | each turn of the loop adds exactly one outcome |
| PostImporter.RunPosts | includes/post-importer.php:119-155 | the loop has one outcome per entry |
| PostImporter.RunPostsSnoc | includes/post-importer.php:119-155 | the loop over one more entry is the loop so far followed by one turn |
| PostImporter.RunPostsAt | includes/post-importer.php:136-151 | entry k's outcome is decided by the state that the entries before it left |
| PostImporter.PrefixKeepsKnown | includes/post-importer.php:136-151 | one more turn keeps a mapped Blogger id mapped to the same id |
| PostImporter.PostKnownPersists | includes/post-importer.php:119-155 | a Blogger id that is mapped at some point of the loop stays mapped to the same id to its end |
| PostImporter.KnownPostSkipped | includes/post-importer.php:136-141 | an entry mapped before the loop is skipped with its stored id wherever it appears, without converting or inserting |
| PostImporter.DuplicatePostSkipped | includes/post-importer.php:136-151 | an entry listed twice is inserted once when its first copy got a real id: the later copy is skipped with that id |
| PostImporter.PostCountsSnoc | includes/post-importer.php:136-151 | one more outcome adds to exactly its own counter, and its id to post_ids unless it failed |
| PostImporter.PostOutcomesPartition | includes/post-importer.php:119-155 | every entry is in exactly one bucket, and post_ids has one id per skipped or imported entry |
| PostImporter.PostIdsAt | includes/post-importer.php:136-151 | post_ids is in input order, entry k's id (the existing id for a skipped entry) following those of the earlier non-failed entries |
| PostImporter.ImportPostsCounts | includes/post-importer.php:107-158 | success + failed + skipped == total == the number of entries, and post_ids has success + skipped ids |
| PostImporter.FirstSome | includes/post-importer.php:166-191 | when some candidate applies, the result is one of the candidates |
| PostImporter.FindAuthorId | includes/post-importer.php:166-191 | the email match wins, then a login equal to the name, then the first administrator, then the current user |
| PostImporter.FindAuthorIdFirstCandidate | includes/post-importer.php:166-191 | find_author_id is the first applicable entry of that priority list, so it always names one of the four candidates |
| PostImporter.PostStore.ImportPost | includes/post-importer.php:25-98 | the outcome and the new mappings, posts and terms are those of the import_post specification |
| PostImporter.PostStore.ImportOne | includes/post-importer.php:136-151 | one turn of import_posts agrees with import_post: a mapped entry is skipped with its id |
| PostImporter.PostStore.Tally | includes/post-importer.php:136-151 | the counters and post_ids after one more turn are those of the outcomes so far |
| PostImporter.PostStore.ImportPosts | includes/post-importer.php:107-158 | the results and the state are those of the import_posts specification |
| Utils.HexValue | includes/utils.php:231-236 | a hex digit denotes a value below 16 |
| Utils.CodeUnit | includes/utils.php:231-236 | four hex digits give a UCS-2 code unit below 0x10000 |
| Utils.ReplaceEscapes | includes/utils.php:231-253 | the callback pass never makes the string longer: each 5-character match becomes 1 character |
| Utils.ReplaceEscapesAbsent | includes/utils.php:231-253 | the replacement pass leaves a string without uXXXX matches unchanged |
| Utils.FixEncoding | includes/utils.php:230-256 | a string without a uXXXX match is returned unchanged |
| Utils.FixEncodingValue | includes/utils.php:223-257 | a non-string value is returned unchanged; a string gets the uXXXX repair |
| Utils.FixEncodingIsReplaceEscapes | includes/utils.php:230-256 | the preg_match guard is only a shortcut: the result is always the replacement pass |
| Utils.Escape | includes/utils.php:231-236 | the escape of a character is "u" and four hex digits, a match of the pattern |
| Utils.EscapeDecodes | includes/utils.php:231-236 | the code unit of a character's escape is the character again |
| Utils.FixEncodingRoundTrip | includes/utils.php:223-257 | repairing a Basic Multilingual Plane string written entirely as escapes gives the string back |
| Utils.SuffixedSlugInjective | includes/utils.php:135-147 | different suffixes give different slugs |
| Utils.SuffixedSlugsCount | includes/utils.php:135-147 | the suffixed slugs base-2 to base-k are k - 1 distinct strings |
| Utils.SlugSearchFree | includes/utils.php:135-147 | the do-while search always ends on a free slug, reached from the first suffix on |
| Utils.UniqueSlugFree | includes/utils.php:115-148 | the slug settled on is never taken by a post of the type |
| Utils.GenerateUniqueSlug | includes/utils.php:115-148 | the base slug when it is free; otherwise base-k for the smallest k >= 2 that is free |
| Utils.LeadingDigits | includes/utils.php:155-167 | the leading digits of an ini value are digits and a prefix of it |
| Utils.Min3 | includes/utils.php:155-167 | the minimum is one of the three values and no larger than any |
| Utils.MaxUploadSize | includes/utils.php:155-167 | the limit is one of the three ini values times 1024 * 1024, and at most each of them |
| Utils.UrlExtension | includes/utils.php:82-85 | the extension of the URL's path, lower-cased character by character, "" when there is none |
| XmlParser.KindTerm | includes/xml-parser.php:185-192 | without a kind-scheme category the kind term is "" |
| XmlParser.KindTermIsFirst | includes/xml-parser.php:185-192 | the kind term is that of the first category with the kind scheme |
| XmlParser.KindTermShape | includes/xml-parser.php:185-192 | the kind term is "" or the term of the first kind-scheme category |
| XmlParser.GetEntryType | includes/xml-parser.php:178-200 | an in-reply-to entry is a comment whatever its categories say; otherwise page exactly when the first kind term contains "#page", post for every other entry |
| XmlParser.TermStatus | includes/xml-parser.php:236-247 | the status is draft exactly when some category term is the draft kind, publish otherwise |
| XmlParser.LabelOf | includes/xml-parser.php:247-250 | a label term is kept as it is, since it does not contain the prefix str_replace removes |
| XmlParser.Labels | includes/xml-parser.php:237-251 | every kept label is a label term, at most one per category |
| XmlParser.LabelsAppend | includes/xml-parser.php:237-251 | labels are taken category by category, in order and repeats kept |
| XmlParser.LabelsSingle | includes/xml-parser.php:241-251 | one category gives its term exactly when it is none of the three kind URIs and not in the Blogger atom namespace |
| XmlParser.MediaFilter | includes/xml-parser.php:358-383 | a URL is kept exactly when it has a listed domain or extension |
| XmlParser.MediaFilterKeepsOrder | includes/xml-parser.php:358-383 | filtering keeps the order of first occurrence |
| XmlParser.ExtractMediaUrls | includes/xml-parser.php:339-387 | the result holds exactly the media URLs among the image then iframe sources, without repeats, each at the order of its first occurrence |
| XmlParser.Permalink | includes/xml-parser.php:227-233 | the href of the first alternate link, absent when there is none |
| XmlParser.ProcessContentEntry | includes/xml-parser.php:210-258 | a post or page record carries the entry's id and content, its labels, its status and its extracted media URLs |
| XmlParser.ProcessCommentEntry | includes/xml-parser.php:267-296 | a comment's post id is its in-reply-to ref and its parent is still unset |
| XmlParser.ProcessEntry | includes/xml-parser.php:154-170 | an entry becomes a comment exactly when it has an in-reply-to; other entries keep the type get_entry_type gives |
| XmlParser.MergeTags | includes/xml-parser.php:113-120 | the tag list gains exactly the new tags, after the old ones, and stays duplicate-free |
| XmlParser.CollectTags | includes/xml-parser.php:113-120 | the tag loop gives the merged list and counts what it added |
| XmlParser.AddEntryConsistent | includes/xml-parser.php:100-126 | filing one entry keeps every counter equal to its list's length and the tag list duplicate-free |
| XmlParser.AllLabelsMember | includes/xml-parser.php:113-120 | a label is collected exactly when some post or page entry carries it |
| XmlParser.AccumulateConsistent | includes/xml-parser.php:89-129 | after the loop every counter equals its list's length, every entry was filed once, and the tag list is duplicate-free and holds exactly the entries' labels |
| XmlParser.AccumulateSnoc | includes/xml-parser.php:89-129 | the loop over one more entry is the loop so far followed by filing that entry |
| XmlParser.AccumulateTags | includes/xml-parser.php:113-120 | the collected tags are exactly the labels of the entries |
| XmlParser.FirstWithId | includes/xml-parser.php:320-326 | the inner search stops at the first comment with the id, and runs off the end exactly when no comment has it |
| XmlParser.FindComment | includes/xml-parser.php:320-326 | the search loop over the current list stops where FirstWithId says |
| XmlParser.SameIdsFirst | includes/xml-parser.php:320-326 | lists with the same ids in the same places give the same search result, so earlier iterations do not change where the search stops |
| XmlParser.ResolveStep | includes/xml-parser.php:315-328 | one iteration changes at most comment i, and length and ids are kept |
| XmlParser.ResolveAt | includes/xml-parser.php:315-328 | iteration i rewrites comment i from the list left by the earlier iterations, exactly when its reference is a collected id that the search finds |
| XmlParser.ResolveUpTo | includes/xml-parser.php:315-328 | after n iterations the length and ids are kept and comments from index n on are untouched |
| XmlParser.ResolveFrozen | includes/xml-parser.php:315-328 | once the loop has passed comment k, later iterations leave it alone |
| XmlParser.ProcessCommentRelationships | includes/xml-parser.php:304-331 | the in-place loop gives the single-pass resolution of the comment list |
| XmlParser.ResolveKeepsTopLevel | includes/xml-parser.php:315-328 | a comment whose ref is no comment id keeps its post id and has no parent |
| XmlParser.ResolveReply | includes/xml-parser.php:315-328 | a comment whose ref is comment j's id gets that id as parent and j's post id as it stands when the loop reaches it |
| XmlParser.ResolveDeepThreadKeepsCommentId | includes/xml-parser.php:315-328 | in a three-level thread listed innermost first the innermost reply keeps a comment id as its post id |
| XmlParser.ResolveKeepsIds | includes/xml-parser.php:304-331 | the comment count, ids and order are unchanged |
| XmlParser.WellFormedPrefix | includes/xml-parser.php:89-92 | the entries before the first malformed one are well formed |
| XmlParser.EntriesOf | includes/xml-parser.php:89-98 | the records of well-formed entries, one per entry in order |
| XmlParser.EntriesOfSnoc | includes/xml-parser.php:89-98 | the records of one more entry extend the list by that entry |
| XmlParser.AccumulateItemsSnoc | includes/xml-parser.php:89-129 | the loop over one more well-formed item is the loop so far followed by filing that item's entry |
| XmlParser.Parser.constructor | includes/xml-parser.php:52-54 | a new parser holds the file, no errors and zero counters |
| XmlParser.Parser.Parse | includes/xml-parser.php:61-145 | a missing or unreadable file gives file_not_found or file_not_readable with an error message and no data; otherwise the entries are filed in order, and a malformed entry gives xml_parse_error after the counters of the earlier ones; on success the data is the accumulation with comments resolved |
| XmlParser.Parser.LoadEntries | includes/xml-parser.php:89-143 | the loop files the entries before the first malformed one; it reports success exactly when none is malformed, otherwise records that entry's message; data and counters are the accumulation of the filed entries |
| XmlParser.Parser.AddToData | includes/xml-parser.php:100-126 | filing one entry updates the data and the object's counters as one step of the accumulation |
| XmlParser.ParseBloggerXml | includes/xml-parser.php:414-416 | the two file errors are reported; a readable file with a malformed entry gives xml_parse_error, and one whose entries are all well formed gives Ok with the accumulated posts, pages, tags and media, the resolved comments and this file's counts alone; on success each count equals the length of its list and the tag list has no duplicates |
| XmlParser.OutputConsistent | includes/xml-parser.php:136-139 | a fresh parser's successful output has counters equal to the lengths of its lists and a duplicate-free tag list |
| MediaHandler.IsGoogleUrlDomains | includes/media-handler.php:440-448 | a URL is a Google URL exactly when it contains googleusercontent.com, blogspot.com, ggpht.com or blogger.com |
| MediaHandler.DigitRun | includes/media-handler.php:459-462 | the run of digits a \d+ consumes: all leading digits and no more |
| MediaHandler.MatchLen | includes/media-handler.php:459-462 | a match of a size pattern starts with "=s" or "=w" and a digit |
| MediaHandler.Strip | includes/media-handler.php:459-462 | deleting matches never makes the URL longer |
| MediaHandler.StripChanges | includes/media-handler.php:459-462 | the deletion changes the URL exactly when a size pattern matches, and then shortens it |
| MediaHandler.FixGoogleImageUrl | includes/media-handler.php:456-471 | a non-Google URL is returned unchanged; for a Google URL the result is the URL with its =s and =w size parameters deleted, followed by "?imgmax=2000" when that has no "?", by "&imgmax=2000" when it has a "?" but no "imgmax=", and by nothing otherwise, so it always asks for imgmax |
| MediaHandler.FixGoogleImageUrlStable | includes/media-handler.php:463-467 | a Google URL with no size parameter whose query already has imgmax= is left as it is |
| MediaHandler.FixGoogleImageUrlShortens | includes/media-handler.php:459-462 | a size parameter on a Google URL is always deleted |
| MediaHandler.ExtensionFromContentType | includes/media-handler.php:479-496 | the first of image/jpeg, image/png, image/gif and image/webp that the content type contains gives jpg, png, gif or webp; when none does, a type containing image/ gives the type with every "image/" deleted; anything else gives "" |
| MediaHandler.ExtensionOfOtherImage | includes/media-handler.php:491-493 | another image subtype comes out as the content type minus "image/", e.g. svg+xml |
| MediaHandler.NoOtherImageType | includes/media-handler.php:479-496 | a type "image/" + t can only occur at the start of "image/" + sub |
| MediaHandler.FileHeader | includes/media-handler.php:531 | the header is the first twelve bytes of the file, or all of a shorter file |
| MediaHandler.SniffExtension | includes/media-handler.php:531-558 | .png exactly for the PNG signature, .gif for GIF8, .webp for RIFF with WEBP, and .jpg for the JPEG signature and for everything else |
| MediaHandler.SniffWebP | includes/media-handler.php:531-558 | a RIFF container with WEBP at its fixed position is sniffed as .webp |
| MediaHandler.VerifyAndFixFileExtension | includes/media-handler.php:505-562 | a missing file is an error; a known type keeps the path; otherwise the exif extension or the sniffed extension is appended |
| MediaHandler.StepUrl | includes/media-handler.php:229-246 | a URL already in the library is skipped with its attachment; the library never loses an entry |
| MediaHandler.RunUrls | includes/media-handler.php:214-250 | one outcome per URL, and the library only grows |
| MediaHandler.UrlCountsSnoc | includes/media-handler.php:214-250 | one more URL adds to exactly its own bucket, and to url_mapping unless it failed |
| MediaHandler.OutcomesPartition | includes/media-handler.php:214-250 | every URL is in exactly one bucket |
| MediaHandler.MappingShape | includes/media-handler.php:229-246 | url_mapping has one entry per skipped or imported URL, each such a URL paired with its attachment's URL |
| MediaHandler.MappingComplete | includes/media-handler.php:229-246 | every URL that did not fail is in url_mapping with its attachment's URL |
| MediaHandler.KnownUrlSkipped | includes/media-handler.php:229-235 | a URL already in the library is counted skipped wherever it appears, so it is not downloaded |
| MediaHandler.ReplaceUrlsAbsent | includes/media-handler.php:253-269 | content in which no old URL occurs is written back unchanged |
| MediaHandler.FilterValid | includes/media-handler.php:192-195 | exactly the valid URLs are kept |
| MediaHandler.PostMediaCounts | includes/media-handler.php:163-272 | success + failed + skipped == total, url_mapping has success + skipped entries, and total is the number of unique valid candidate URLs |
| MediaHandler.PostMediaSkipsKnown | includes/media-handler.php:229-235 | a candidate URL recorded in the library is counted skipped, whether the URLs were given or taken from the post's content |
| MediaHandler.CandidateUrlsUnique | includes/media-handler.php:174-195 | the candidate list has no repeats and holds exactly the valid URLs of its source, which is the URLs given or, when none are given, the image sources of the post's content |
| MediaHandler.FilterValidKeepsOrder | includes/media-handler.php:192-195 | filtering keeps the order of first occurrence |
| MediaHandler.AllMediaCounts | includes/media-handler.php:280-316 | the summed totals balance: success + failed + skipped == total |
| MediaHandler.MediaLibrary.ImportUrl | includes/media-handler.php:229-246 | one URL against the library, as StepUrl; the posts are untouched |
| MediaHandler.MediaLibrary.RewriteContent | includes/media-handler.php:253-269 | the post's content gets every old URL replaced in mapping order; the library is untouched |
| MediaHandler.MediaLibrary.UrlStep | includes/media-handler.php:214-250 | one loop turn: the run over the first i URLs grows by URL i, and the counters and url_mapping follow it |
| MediaHandler.MediaLibrary.ImportPostMedia | includes/media-handler.php:163-272 | the results and the new library and posts are those of the import_post_media specification |
| MediaHandler.MediaLibrary.ImportAllMedia | includes/media-handler.php:280-316 | the totals and the state are those of import_post_media run for every post, summed |
| BlockConverter.Lookup | includes/block-converter.php:392-450 | a key's value is found exactly when the attrs hold the key, and it is the value stored with it |
| BlockConverter.LookupAt | includes/block-converter.php:392-450 | in attrs without repeated keys the entry with the key decides the lookup |
| BlockConverter.ReplaceInlineTagsRemovesAll | includes/block-converter.php:191-197 | no <b>, </b>, <i> or </i> is left afterwards, whatever the letter case of the input |
| BlockConverter.ReplaceInlineTagsIdentity | includes/block-converter.php:191-197 | HTML without the four tags is left unchanged |
| BlockConverter.ReplaceInlineTagsIdempotent | includes/block-converter.php:191-197 | applying the replacement twice equals applying it once |
| BlockConverter.StyleAlign | includes/block-converter.php:471-478 | a style gives "" or one of the three alignments |
| BlockConverter.AttrAlign | includes/block-converter.php:481-486 | an align attribute gives "" or one of the three alignments |
| BlockConverter.NodeAlign | includes/block-converter.php:471-486 | one element gives "" or one of the three alignments |
| BlockConverter.FirstStated | includes/block-converter.php:468-488 | the answer of the walk is "" or the answer of some element of the chain |
| BlockConverter.FirstStatedNearest | includes/block-converter.php:468-488 | the first element with a non-empty answer decides |
| BlockConverter.FirstStatedNone | includes/block-converter.php:468-488 | the walk finds nothing exactly when no element answers |
| BlockConverter.DetectAlign | includes/block-converter.php:467-489 | the result is "", center, right or left |
| BlockConverter.DetectAlignNearest | includes/block-converter.php:467-489 | the nearest element (itself first, then its ancestors) that states an alignment wins |
| BlockConverter.DetectAlignNone | includes/block-converter.php:467-489 | "" exactly when no element of the chain states an alignment |
| BlockConverter.StyleAlignOrder | includes/block-converter.php:471-486 | within a style naming text-align, center is tested before right and right before left; a style naming text-align and one of center/right/left beats the align attribute, while one naming none of them (text-align: justify) leaves the answer to the align attribute |
| BlockConverter.ElementAlign | includes/block-converter.php:471-486 | one step of the walk computes the element's own alignment |
| BlockConverter.DetectAlignWalk | includes/block-converter.php:467-489 | the parentNode loop with its early returns computes detect_align |
| BlockConverter.FigCaption | includes/block-converter.php:416-419 | the figcaption markup is empty exactly when the caption is |
| BlockConverter.OptionToSeq | includes/block-converter.php:130-156 | a builder that may return false contributes at most one block |
| BlockConverter.ProcessChildrenAppend | includes/block-converter.php:50-167 | the blocks of two runs of children are those of each run, in order |
| BlockConverter.ProcessChildrenSingle | includes/block-converter.php:50-167 | a single child contributes its own blocks |
| BlockConverter.ProcessChildrenSnoc | includes/block-converter.php:50-167 | one more child appends its blocks |
| BlockConverter.ProcessNode | includes/block-converter.php:46-170 | the loop of process_node gives the blocks of each child, in child order |
| BlockConverter.ProcessChildNode | includes/block-converter.php:52-166 | one turn of the loop gives that child's blocks |
| BlockConverter.ProcessContainer | includes/block-converter.php:148-164 | figure, div and unlisted elements give their recursive blocks |
| BlockConverter.ProcessFigureNode | includes/block-converter.php:348-358 | the method gives process_figure's blocks |
| BlockConverter.ProcessLeaf | includes/block-converter.php:63-156 | the cases that build blocks directly give the dispatcher's blocks |
| BlockConverter.TextChildBlocks | includes/block-converter.php:52-57 | blank text yields nothing; other text yields exactly one unaligned paragraph of its trimmed text |
| BlockConverter.HeadingChildLevel | includes/block-converter.php:64-67 | h1 to h6 yield one core/heading whose level is the digit of the tag name |
| BlockConverter.FigureIsProcessFigure | includes/block-converter.php:148-150 | a figure child gives process_figure's blocks |
| BlockConverter.SplicedChild | includes/block-converter.php:158-164 | div and every unlisted element splice in their children's blocks |
| BlockConverter.SplicedInPlace | includes/block-converter.php:158-164 | wrapping children in a div changes nothing: the parent gets their blocks at that place |
| BlockConverter.InlineChildParagraph | includes/block-converter.php:79-95 | b, strong, i, em, u and span yield one paragraph of the element's own HTML, aligned as detect_align says |
| BlockConverter.AnchorChildParagraph | includes/block-converter.php:107-124 | an anchor that is not an image link yields one paragraph of its own HTML |
| BlockConverter.ParagraphAlign | includes/block-converter.php:199-213 | a paragraph has an align attribute exactly when an alignment was found, and then that one |
| BlockConverter.ParagraphChild | includes/block-converter.php:70-76 | a p yields one block: the image when it is an image paragraph, else a paragraph of its inner HTML |
| BlockConverter.ImageAttrsKeys | includes/block-converter.php:423-440 | the attrs keys come in insertion order: sizeSlug, linkDestination, align, className, then id or url, then href |
| BlockConverter.ImageAttrsFacts | includes/block-converter.php:423-440 | exactly one of id and url, href only for a kept link, align defaulting to none |
| BlockConverter.ImageAttrsShape | includes/block-converter.php:423-440 | the attrs hold each key once, and the values stored under them |
| BlockConverter.ImageAttrsKeySet | includes/block-converter.php:423-440 | id exactly when an attachment was found, url exactly when not, href exactly for a kept link |
| BlockConverter.ImageBlockFacts | includes/block-converter.php:392-450 | an image block carries its link destination, href only for a kept link, url when no attachment is found, and the align or none |
| BlockConverter.ImageHtmlCaption | includes/block-converter.php:415-420 | the figure ends with the caption markup, which is present only for a non-empty caption |
| BlockConverter.ImageParagraphIff | includes/block-converter.php:238-267 | a p gives an image block exactly when every direct child is a, img, br or blank text and the first img has a src; the link destination is none |
| BlockConverter.AnchorImageIff | includes/block-converter.php:503-539 | an a gives an image block exactly when it holds an img with a src and no text of its own; the link is kept exactly when href is set and not a Blogger full-size image link |
| BlockConverter.TableImageIff | includes/block-converter.php:309-324 | a table gives an image block exactly when it has two rows and the first holds an img with a src |
| BlockConverter.TableImageAlign | includes/block-converter.php:318-322 | the table image is centred only when the first cell's style says text-align: center, and has no link |
| BlockConverter.TableImageCaption | includes/block-converter.php:316-317 | the caption is the trimmed text of the second row's first cell |
| BlockConverter.EmbedBlockProvider | includes/block-converter.php:360-377 | no block without a src; otherwise url is the src and the provider is youtube, then vimeo, else the generic embed |
| BlockConverter.IframeChild | includes/block-converter.php:152-156 | an iframe yields one embed block, or nothing when it has no src |
| BlockConverter.FigureChild | includes/block-converter.php:348-351 | a figure with an img gives a one-element list, whose element is false when the img has no src |
| BlockConverter.ListChildItems | includes/block-converter.php:269-289 | ul and ol yield one list with one item per li descendant, nested ones included, and the ordered flag |
| BlockConverter.RemoveDelimited | includes/block-converter.php:37-38 | removing the Blogger divs never makes the content longer |
| BlockConverter.RemoveDelimitedAbsent | includes/block-converter.php:37-38 | content without the opening tag is unchanged |
| BlockConverter.SpaceRun | includes/block-converter.php:40 | the \s run is all leading whitespace and no more |
| BlockConverter.EmptyParagraphAt | includes/block-converter.php:40 | a match of the empty-paragraph pattern is at least seven characters |
| BlockConverter.RemoveEmptyParagraphs | includes/block-converter.php:40 | dropping empty paragraphs never makes the content longer |
| BlockConverter.RemoveEmptyParagraphsAbsent | includes/block-converter.php:40 | content where the empty-paragraph pattern matches at no position is unchanged |
| BlockConverter.ConvertToBlocks | includes/block-converter.php:15-32 | the result is serialize_blocks of the blocks of the body after repair and cleaning, or one paragraph of the content when there is no body |
| PhpString.Trim | includes/tag-handler.php:47 | trim strips exactly a leading and a trailing run of trim characters and gives "" exactly for a blank string |
| PhpString.NatToStringRoundTrip | includes/utils.php:135-147 | the decimal suffix of a slug reads back as its number |
| PhpArray.Unique | includes/media-handler.php:192-195 | array_unique keeps exactly the values of the input, once each, in order of first occurrence |

## Left out

- WordPress, PHP and system calls are parameters of the model, not implementations:
  - the DOM parser and serialiser: `loadHTML`, `saveHTML`, `force_balance_tags`;
  - sanitising and escaping: `wp_kses_post`, `esc_url`, `esc_attr`, `esc_html`;
  - block output and lookups: `serialize_blocks`, `attachment_url_to_postid`, `sanitize_title`, `filter_var`;
  - `bio_format_date`, `get_term_by` with `wp_insert_term`, `wp_insert_comment`, `wp_insert_post`;
  - `wp_get_attachment_url`, and the image-source regex over post content;
  - the media download and sideload.
- The XML stream (XMLReader, SimpleXML, namespaces) is not modelled. Each `<entry>` arrives as an extracted record. The captures of the img and iframe patterns are fields of that record. A malformed entry stands for the exception that SimpleXMLElement throws.
- Progress reporting inside the loops is not modelled, because it is output only. This covers `update_import_progress` calls, `usleep` and the retry sleeps.
- `log_error` of the error handler, and the logging inside execute_with_retry, are not modelled. They write to the PHP error log and db-handler's log, and no result depends on them.
- The SQL fallbacks are not modelled: the postmeta and commentmeta queries of the two id lookups, and the guid and filename matches of `get_attachment_id_by_url`. Only the options path and the `_bio_original_url` meta are modelled.
- `get_all_mappings`, `store_import_stats`, `get_import_stats`, `maybe_create_category`, `bio_format_size`, `bio_sanitize_filename`, `bio_sanitize_array` and the temp-file helpers are not modelled. They are not part of the import core, or they rest on floating point or WordPress sanitisers.
- The return value of `update_option` is ignored by the code and not modelled.
- `import_media` is modelled as one call that gives an attachment id or an error. The extension repair it calls is modelled on its own as `VerifyAndFixFileExtension`. The file renames, unlinks and temporary files are left out.
- The fields that never vary are not modelled: approval and type of a comment, and the GMT copies of the dates of comments and posts (`post_date_gmt` and `post_modified_gmt`, post-importer.php:54, 56).
- The inserts of `import_post` and `import_comment` go through `execute_with_retry`. The importers take the retried result as an oracle. They do not share the static retry counter, which is keyed by the Blogger id, across entries. So after one exhausted run, a later entry with the same id would get false without another call, and the model does not capture that. `ErrorHandler.OperationKeyShared` states that behaviour on its own.
- The post's author is the current user, as `import_post` writes it. `find_author_id` is modelled on its own, because `import_post` does not call it.
- The two block filters (`bio_pre_convert_to_blocks`, `bio_post_convert_to_blocks`) and the `bio_after_import_post` action are taken to have no callbacks, since the plugin registers none.
- The `bio_pre_insert_post` filter (post-importer.php:62) is taken to have no callbacks: the post array is inserted as built.
- The `bio_pre_insert_comment` filter and the `bio_after_import_comment` action (comment-importer.php:60, 85) are taken to have no callbacks.
- The `bio_pre_import_tags` filter, the `bio_after_import_tags` action and the `bio_should_import_tag` filter (tag-handler.php:40, 94, 147) are taken to have no callbacks. `TagHandler.ShouldImportTag` states the unfiltered answer, which a callback could overturn.
- The `bio_after_import_media` action (media-handler.php:150) is taken to have no callbacks.
- `DbHandler.ProgressRoundTrip`: the progress transient's 24-hour expiry (db-handler.php:27) is not modelled, because there is no clock. The model reads the progress back however much later, where WordPress gives false once the transient has expired.
- `Utils.IntCast`: only an optional sign and leading decimal digits are read. PHP 8 also reads a leading number in exponent or decimal-point form, so `(int)"1e3"` is 1000 where the model gives 1.
- `Utils.MaxUploadSize`: the product `× 1024 × 1024` is taken over unbounded integers. PHP's overflow of a very large ini value into a float is not modelled.
- The `bio_post_has_media` action that `import_post` fires is not modelled inside `PostImporter`. media-handler.php hooks `import_post_media` to it, and that operation is modelled on its own store in `MediaHandler`. Keeping the two stores apart keeps the post-import proofs small.
- `BlockConverter.ConvertToBlocks`: loadHTML's error recovery is not modelled. When the document has a body, that body is taken to sit directly under the html element, so its only element ancestor is html.
- A uXXXX sequence naming a lone UTF-16 surrogate half is repaired to '?', the substitute character of mb_convert_encoding. The callback's exception fallbacks (json_decode, the original match) are not modelled, because the first method does not throw on these inputs.
- `PhpString.Lower`: case folding is ASCII only, as strtolower and stripos do in the C locale.
- `CommentImporter.ImportCommentsCounts`: states the counts only. What the two passes change is stated by `CommentStore.ImportComments` and the Relink lemmas.
- Loose `==` and `in_array` comparisons of the source are modelled as string equality. PHP 8 compares two numeric strings as numbers, so the source merges labels such as "1000" and "1e3", or "10" and "10.0", into one entry of the global tag list (xml-parser.php:115). `XmlParser.MergeTags` keeps both, and `XmlParser.AllLabelsMember` and `XmlParser.AccumulateTags` state the string-equality version. The comment-id comparisons of process_comment_relationships (xml-parser.php:319-321) are not affected, because Atom entry ids are `tag:` URIs, which are never numeric.
- The orphan comments that process_comment_relationships does not count are simply not counted, and nothing in the model claims otherwise.
