/**
 * The HTML-to-block converter (includes/block-converter.php). Post HTML is
 * repaired, cleaned and parsed; every child of the body then becomes zero
 * or more Gutenberg block arrays, which serialize_blocks turns into the
 * stored post content.
 */
module BlockConverter {
  import opened Wrappers
  import opened PhpString
  import opened Dom
  import Url
  import Utils

  /* ---------------- Blocks and the functions the converter calls ---------------- */

  /** A value of a block attribute: the PHP string, int or bool stored under its key. */
  datatype AttrValue = Str(s: string) | Int(i: int) | Bool(b: bool)

  /**
   * The keys the converter writes into attrs arrays: align, level, ordered,
   * sizeSlug, linkDestination, className, id, url, href, providerNameSlug,
   * type and responsive.
   */
  datatype Key =
    | AlignKey | LevelKey | OrderedKey | SizeSlugKey | LinkDestinationKey | ClassNameKey
    | IdKey | UrlKey | HrefKey | ProviderNameSlugKey | TypeKey | ResponsiveKey

  /** One entry of a block's attrs array, in insertion order. */
  datatype BlockAttr = BlockAttr(key: Key, value: AttrValue)

  /**
   * A block array (blockName, attrs, innerBlocks, innerHTML, innerContent).
   * NoBlock is the PHP false that process_figure can place in a block list.
   */
  datatype Block =
    | Block(name: string, attrs: seq<BlockAttr>, innerBlocks: seq<Block>, innerHtml: string, innerContent: seq<string>)
    | NoBlock

  /** What loadHTML yields: the attributes of the html element and its body element, if any. */
  datatype Document = Document(htmlAttrs: seq<Attr>, body: Option<Node>)

  /** The WordPress and libxml functions the converter calls, as oracles. */
  datatype Env = Env(
    kses: string -> string,          // wp_kses_post
    escUrl: string -> string,        // esc_url
    escAttr: string -> string,       // esc_attr
    escHtml: string -> string,       // esc_html
    saveHtml: Node -> string,        // DOMDocument::saveHTML($node)
    attachmentId: string -> nat,     // attachment_url_to_postid, 0 when there is none
    balanceTags: string -> string,   // force_balance_tags
    loadHtml: string -> Document,    // DOMDocument::loadHTML
    serialize: seq<Block> -> string) // serialize_blocks

  predicate HasKey(attrs: seq<BlockAttr>, key: Key) {
    exists k | 0 <= k < |attrs| :: attrs[k].key == key
  }

  /** $attrs[$key]: the value stored under the key, if any. */
  function Lookup(attrs: seq<BlockAttr>, key: Key): (v: Option<AttrValue>)
    ensures v.None? <==> !HasKey(attrs, key)
    ensures v.Some? ==> exists k | 0 <= k < |attrs| :: attrs[k] == BlockAttr(key, v.value)
  {
    if attrs == [] then None
    else if attrs[0].key == key then Some(attrs[0].value)
    else
      assert forall k | 1 <= k < |attrs| :: attrs[k] == attrs[1..][k - 1];
      Lookup(attrs[1..], key)
  }

  /** A PHP array never holds a key twice. */
  predicate DistinctKeys(attrs: seq<BlockAttr>) {
    forall j, k | 0 <= j < k < |attrs| :: attrs[j].key != attrs[k].key
  }

  /** The first entry with the key decides the lookup. */
  lemma {:induction false} LookupAt(attrs: seq<BlockAttr>, key: Key, i: nat)
    requires i < |attrs| && attrs[i].key == key
    requires forall j | 0 <= j < i :: attrs[j].key != key
    ensures Lookup(attrs, key) == Some(attrs[i].value)
  {
    if i > 0 {
      assert forall j | 0 <= j < i - 1 :: attrs[1..][j] == attrs[j + 1];
      LookupAt(attrs[1..], key, i - 1);
    }
  }

  /* ---------------- replace_inline_tags ---------------- */

  /** str_ireplace of <b>, </b>, <i>, </i> by <strong>, </strong>, <em>, </em>, one pass per pair. */
  function ReplaceInlineTags(s: string): string {
    var s1 := ReplaceAll(s, "<b>", "<strong>", true);
    var s2 := ReplaceAll(s1, "</b>", "</strong>", true);
    var s3 := ReplaceAll(s2, "<i>", "<em>", true);
    ReplaceAll(s3, "</i>", "</em>", true)
  }

  /** None of the four tags the passes replace is named in the string, in any letter case. */
  predicate NoInlineTags(s: string) {
    !ContainsCI(s, "<b>") && !ContainsCI(s, "</b>") && !ContainsCI(s, "<i>") && !ContainsCI(s, "</i>")
  }

  /** After the replacement no <b>, </b>, <i> or </i> is left, whatever the case of the input's tags. */
  lemma ReplaceInlineTagsRemovesAll(s: string)
    ensures NoInlineTags(ReplaceInlineTags(s))
  {
    var s1 := ReplaceAll(s, "<b>", "<strong>", true);
    var s2 := ReplaceAll(s1, "</b>", "</strong>", true);
    var s3 := ReplaceAll(s2, "<i>", "<em>", true);
    BoldOpenPass(s);
    BoldClosePass(s1);
    ItalicOpenPass(s2);
    ItalicClosePass(s3);
  }

  lemma BoldOpenPass(s: string)
    ensures !ContainsCI(ReplaceAll(s, "<b>", "<strong>", true), "<b>")
  {
    ReplaceAllNoNewOccurrence(s, "<b>", "<strong>", "<b>", true, 1);
  }

  lemma BoldClosePass(s1: string)
    requires !ContainsCI(s1, "<b>")
    ensures var s2 := ReplaceAll(s1, "</b>", "</strong>", true);
      !ContainsCI(s2, "<b>") && !ContainsCI(s2, "</b>")
  {
    ReplaceAllNoNewOccurrence(s1, "</b>", "</strong>", "<b>", true, 1);
    ReplaceAllNoNewOccurrence(s1, "</b>", "</strong>", "</b>", true, 2);
  }

  lemma ItalicOpenPass(s2: string)
    requires !ContainsCI(s2, "<b>") && !ContainsCI(s2, "</b>")
    ensures var s3 := ReplaceAll(s2, "<i>", "<em>", true);
      !ContainsCI(s3, "<b>") && !ContainsCI(s3, "</b>") && !ContainsCI(s3, "<i>")
  {
    ReplaceAllNoNewOccurrence(s2, "<i>", "<em>", "<b>", true, 1);
    ReplaceAllNoNewOccurrence(s2, "<i>", "<em>", "</b>", true, 1);
    ReplaceAllNoNewOccurrence(s2, "<i>", "<em>", "<i>", true, 1);
  }

  lemma ItalicClosePass(s3: string)
    requires !ContainsCI(s3, "<b>") && !ContainsCI(s3, "</b>") && !ContainsCI(s3, "<i>")
    ensures NoInlineTags(ReplaceAll(s3, "</i>", "</em>", true))
  {
    ReplaceAllNoNewOccurrence(s3, "</i>", "</em>", "<b>", true, 1);
    ReplaceAllNoNewOccurrence(s3, "</i>", "</em>", "</b>", true, 2);
    ReplaceAllNoNewOccurrence(s3, "</i>", "</em>", "<i>", true, 1);
    ReplaceAllNoNewOccurrence(s3, "</i>", "</em>", "</i>", true, 2);
  }

  /** HTML without the four tags comes back unchanged. */
  lemma ReplaceInlineTagsIdentity(s: string)
    requires NoInlineTags(s)
    ensures ReplaceInlineTags(s) == s
  {
    ReplaceAllAbsent(s, "<b>", "<strong>", true);
    ReplaceAllAbsent(s, "</b>", "</strong>", true);
    ReplaceAllAbsent(s, "<i>", "<em>", true);
    ReplaceAllAbsent(s, "</i>", "</em>", true);
  }

  lemma ReplaceInlineTagsIdempotent(s: string)
    ensures ReplaceInlineTags(ReplaceInlineTags(s)) == ReplaceInlineTags(s)
  {
    ReplaceInlineTagsRemovesAll(s);
    ReplaceInlineTagsIdentity(ReplaceInlineTags(s));
  }

  /* ---------------- detect_align ---------------- */

  /** The three alignments the converter recognises. */
  predicate IsAlignment(a: string) {
    a == "center" || a == "right" || a == "left"
  }

  /** What one element's style attribute says, "" when it names no text-align or no known alignment. */
  function StyleAlign(attrs: seq<Attr>): (a: string)
    ensures a == "" || IsAlignment(a)
  {
    var style := LowerStr(GetAttribute(attrs, "style"));
    if !HasAttribute(attrs, "style") || !Contains(style, "text-align") then ""
    else if Contains(style, "center") then "center"
    else if Contains(style, "right") then "right"
    else if Contains(style, "left") then "left"
    else ""
  }

  /** What one element's align attribute says, "" unless it is a known alignment in some letter case. */
  function AttrAlign(attrs: seq<Attr>): (a: string)
    ensures a == "" || IsAlignment(a)
  {
    var align := LowerStr(GetAttribute(attrs, "align"));
    if HasAttribute(attrs, "align") && IsAlignment(align) then align else ""
  }

  /** The alignment one element states: its style first, then its align attribute. */
  function NodeAlign(attrs: seq<Attr>): (a: string)
    ensures a == "" || IsAlignment(a)
  {
    if StyleAlign(attrs) != "" then StyleAlign(attrs) else AttrAlign(attrs)
  }

  /** The first non-empty answer of f along a chain of attribute lists, nearest first; "" when every answer is "". */
  function FirstStated(chain: seq<seq<Attr>>, f: seq<Attr> -> string): (a: string)
    ensures a == "" || exists j | 0 <= j < |chain| :: a == f(chain[j])
  {
    if chain == [] then ""
    else if f(chain[0]) != "" then f(chain[0])
    else
      assert forall j | 0 <= j < |chain| - 1 :: chain[1..][j] == chain[j + 1];
      FirstStated(chain[1..], f)
  }

  lemma {:induction false} FirstStatedNearest(chain: seq<seq<Attr>>, f: seq<Attr> -> string, i: nat)
    requires i < |chain| && f(chain[i]) != ""
    requires forall j | 0 <= j < i :: f(chain[j]) == ""
    ensures FirstStated(chain, f) == f(chain[i])
  {
    if i > 0 {
      var rest := chain[1..];
      assert forall j | 0 <= j < i - 1 :: rest[j] == chain[j + 1];
      FirstStatedNearest(rest, f, i - 1);
    }
  }

  lemma {:induction false} FirstStatedNone(chain: seq<seq<Attr>>, f: seq<Attr> -> string)
    ensures FirstStated(chain, f) == "" <==> forall j | 0 <= j < |chain| :: f(chain[j]) == ""
  {
    if chain != [] {
      FirstStatedNone(chain[1..], f);
      assert forall j | 1 <= j < |chain| :: chain[j] == chain[1..][j - 1];
    }
  }

  /**
   * detect_align on an element given its chain of attribute lists: its own,
   * then those of its element ancestors, nearest first. The first element
   * that states an alignment decides.
   */
  function DetectAlign(chain: seq<seq<Attr>>): (a: string)
    ensures a == "" || IsAlignment(a)
  {
    FirstStated(chain, NodeAlign)
  }

  /** The nearest element that states an alignment wins. */
  lemma DetectAlignNearest(chain: seq<seq<Attr>>, i: nat)
    requires i < |chain| && NodeAlign(chain[i]) != ""
    requires forall j | 0 <= j < i :: NodeAlign(chain[j]) == ""
    ensures DetectAlign(chain) == NodeAlign(chain[i])
  {
    FirstStatedNearest(chain, NodeAlign, i);
  }

  /** No alignment is found exactly when no element of the chain states one. */
  lemma DetectAlignNone(chain: seq<seq<Attr>>)
    ensures DetectAlign(chain) == "" <==> forall j | 0 <= j < |chain| :: NodeAlign(chain[j]) == ""
  {
    FirstStatedNone(chain, NodeAlign);
  }

  /**
   * Within a style that names text-align, center is tested before right and
   * right before left; such a style beats the align attribute, and a style
   * naming none of the three (text-align: justify) leaves the decision to it.
   */
  lemma StyleAlignOrder(attrs: seq<Attr>)
    requires HasAttribute(attrs, "style")
    ensures var style := LowerStr(GetAttribute(attrs, "style"));
      Contains(style, "text-align") ==>
        (Contains(style, "center") ==> StyleAlign(attrs) == "center") &&
        (!Contains(style, "center") && Contains(style, "right") ==> StyleAlign(attrs) == "right") &&
        (!Contains(style, "center") && !Contains(style, "right") && Contains(style, "left") ==> StyleAlign(attrs) == "left")
    ensures StyleAlign(attrs) != "" ==> NodeAlign(attrs) == StyleAlign(attrs)
    ensures var style := LowerStr(GetAttribute(attrs, "style"));
      !Contains(style, "center") && !Contains(style, "right") && !Contains(style, "left") ==>
        NodeAlign(attrs) == AttrAlign(attrs)
  {
  }

  /** One step of the walk: the style of the element first, then its align attribute; "" when neither says anything. */
  method ElementAlign(attrs: seq<Attr>) returns (a: string)
    ensures a == NodeAlign(attrs)
  {
    if HasAttribute(attrs, "style") {
      var style := LowerStr(GetAttribute(attrs, "style"));
      if Contains(style, "text-align") {
        if Contains(style, "center") { return "center"; }
        if Contains(style, "right") { return "right"; }
        if Contains(style, "left") { return "left"; }
      }
    }
    if HasAttribute(attrs, "align") {
      var align := LowerStr(GetAttribute(attrs, "align"));
      if IsAlignment(align) {
        return align;
      }
    }
    return "";
  }

  /** The parentNode walk of detect_align, with its early returns. */
  method DetectAlignWalk(chain: seq<seq<Attr>>) returns (a: string)
    ensures a == DetectAlign(chain)
  {
    var i := 0;
    while i < |chain|
      invariant 0 <= i <= |chain|
      invariant DetectAlign(chain) == FirstStated(chain[i..], NodeAlign)
    {
      assert chain[i..][0] == chain[i] && chain[i..][1..] == chain[i + 1..];
      var found := ElementAlign(chain[i]);
      if found != "" {
        return found;
      }
      i := i + 1;
    }
    return "";
  }

  /* ---------------- Block builders ---------------- */

  /** get_inner_html: the saved HTML of the node's children, concatenated. */
  function InnerHtml(env: Env, n: Node): string {
    SaveAll(env, ChildrenOf(n))
  }

  function SaveAll(env: Env, ns: seq<Node>): string {
    if ns == [] then "" else env.saveHtml(ns[0]) + SaveAll(env, ns[1..])
  }

  /**
   * create_paragraph_block, and the two places that build the same array
   * inline: the HTML's inline tags replaced and sanitised, and an align
   * attribute only when an alignment was found.
   */
  function ParagraphBlock(env: Env, html: string, align: string): Block {
    var text := env.kses(ReplaceInlineTags(html));
    Block("core/paragraph", if Truthy(align) then [BlockAttr(AlignKey, Str(align))] else [], [],
      "<p>" + text + "</p>", [text])
  }

  predicate IsHeadingName(name: string) {
    name == "h1" || name == "h2" || name == "h3" || name == "h4" || name == "h5" || name == "h6"
  }

  /** create_heading_block: the level is the (int) of the tag name after its 'h'. */
  function HeadingBlock(env: Env, name: string, n: Node): Block
    requires |name| >= 1
  {
    var level := Utils.IntCast(name[1..]);
    var content := env.kses(TextContent(n));
    var html := "<h" + IntToString(level) + " class=\"wp-block-heading\">" + content + "</h" + IntToString(level) + ">";
    Block("core/heading", [BlockAttr(LevelKey, Int(level))], [], html, [html])
  }

  function ListItem(env: Env, li: Node): Block {
    var html := env.kses(InnerHtml(env, li));
    Block("core/list-item", [], [], "<li>" + html + "</li>", [html])
  }

  /** create_list_block: one list item per li descendant, nested ones included. */
  function ListBlock(env: Env, n: Node, ordered: bool): Block {
    var tag := if ordered then "ol" else "ul";
    var lis := ElementsByTagName(n, "li");
    var html := "<" + tag + " class=\"wp-block-list\"></" + tag + ">";
    Block("core/list", [BlockAttr(OrderedKey, Bool(ordered))],
      seq(|lis|, k requires 0 <= k < |lis| => ListItem(env, lis[k])), html, [html])
  }

  function QuoteBlock(env: Env, n: Node): Block {
    var html := "<blockquote>" + InnerHtml(env, n) + "</blockquote>";
    Block("core/quote", [], [], html, [html])
  }

  function CodeBlock(env: Env, n: Node): Block {
    var html := "<pre><code>" + env.escHtml(TextContent(n)) + "</code></pre>";
    Block("core/code", [], [], html, [html])
  }

  function TableBlock(env: Env, n: Node): Block {
    var html := "<figure class=\"wp-block-table\"><table>" + InnerHtml(env, n) + "</table></figure>";
    Block("core/table", [], [], html, [html])
  }

  /** The markup of a non-empty caption; none for an empty one. */
  function FigCaption(env: Env, caption: string): (h: string)
    ensures h == "" <==> caption == ""
  {
    if caption != "" then "<figcaption class=\"wp-element-caption\"><strong>" + env.kses(caption) + "</strong></figcaption>"
    else ""
  }

  /** build_image_block: a core/image block for src, linked to href when the link is kept. */
  function BuildImageBlock(env: Env, src: string, alt: string, caption: string, align: string,
                           linkDest: string, href: string): Block
  {
    var html := ImageHtml(env, src, alt, caption, align, linkDest, href);
    Block("core/image", ImageAttrs(src, env.attachmentId(src), align, ImageClassName(align), linkDest, href), [], html, [html])
  }

  /** The " alignX" class build_image_block adds for a truthy alignment. */
  function AlignClass(align: string): string {
    if Truthy(align) then " align" + align else ""
  }

  /** The link is kept only as a custom destination with a truthy href. */
  predicate KeepsLink(linkDest: string, href: string) {
    linkDest == "custom" && Truthy(href)
  }

  /** The className attribute: the trimmed block class with its alignment class. */
  function ImageClassName(align: string): string {
    Trim("wp-block-image" + AlignClass(align))
  }

  /** The attrs array of build_image_block, in insertion order. */
  function ImageAttrs(src: string, id: nat, align: string, className: string, linkDest: string, href: string): seq<BlockAttr> {
    var head := [BlockAttr(SizeSlugKey, Str("full")), BlockAttr(LinkDestinationKey, Str(linkDest)),
                 BlockAttr(AlignKey, Str(if Truthy(align) then align else "none")),
                 BlockAttr(ClassNameKey, Str(className)),
                 if id != 0 then BlockAttr(IdKey, Int(id)) else BlockAttr(UrlKey, Str(src))];
    if KeepsLink(linkDest, href) then head + [BlockAttr(HrefKey, Str(href))] else head
  }

  /** The figure markup of build_image_block: the figure with its image, then the caption and the closing tag. */
  function ImageHtml(env: Env, src: string, alt: string, caption: string, align: string,
                     linkDest: string, href: string): string
  {
    FigureOpen(env, src, alt, align, linkDest, href) + FigureClose(env, caption)
  }

  function FigureOpen(env: Env, src: string, alt: string, align: string, linkDest: string, href: string): string {
    var id := env.attachmentId(src);
    var imgClass := if id != 0 then "wp-image-" + NatToString(id) else "";
    var figClass := "wp-block-image" + AlignClass(align) + " size-full";
    var img := "<img src=\"" + env.escUrl(src) + "\" alt=\"" + env.escAttr(alt) + "\""
      + (if Truthy(imgClass) then " class=\"" + env.escAttr(imgClass) + "\"" else "") + "/>";
    var imgTag := if KeepsLink(linkDest, href) then "<a href=\"" + env.escUrl(href) + "\">" + img + "</a>" else img;
    "<figure class=\"" + env.escAttr(figClass) + "\">" + imgTag
  }

  function FigureClose(env: Env, caption: string): string {
    FigCaption(env, caption) + "</figure>"
  }

  /** `$img->getAttribute('alt') ?: ''`: a falsy alt ("" or "0") becomes "". */
  function AltOf(attrs: seq<Attr>): string {
    var alt := GetAttribute(attrs, "alt");
    if Truthy(alt) then alt else ""
  }

  /** create_image_block: nothing (PHP false) when the src is falsy. */
  function CreateImageBlock(env: Env, attrs: seq<Attr>): Option<Block> {
    var src := GetAttribute(attrs, "src");
    if !Truthy(src) then None
    else Some(BuildImageBlock(env, src, AltOf(attrs), "", "", "none", ""))
  }

  /** The embed provider a src names: youtu (tested first), then vimeo.com. */
  function EmbedProvider(src: string): string {
    if Contains(src, "youtu") then "youtube"
    else if Contains(src, "vimeo.com") then "vimeo"
    else ""
  }

  /** create_embed_block: nothing when the iframe has a falsy src. */
  function CreateEmbedBlock(env: Env, attrs: seq<Attr>): Option<Block> {
    var src := GetAttribute(attrs, "src");
    if !Truthy(src) then None
    else
      var provider := EmbedProvider(src);
      var name := if Truthy(provider) then "core-embed/" + provider else "core/embed";
      var html := EmbedHtml(env, src, provider);
      Some(Block(name, EmbedAttrs(src, provider), [], html, [html]))
  }

  /** The attrs of an embed block, in insertion order. */
  function EmbedAttrs(src: string, provider: string): seq<BlockAttr> {
    [BlockAttr(UrlKey, Str(src)), BlockAttr(ProviderNameSlugKey, Str(provider)),
     BlockAttr(TypeKey, Str("rich")), BlockAttr(ResponsiveKey, Bool(true))]
  }

  function EmbedHtml(env: Env, src: string, provider: string): string {
    "<figure class=\"wp-block-embed-" + env.escAttr(provider) + " wp-block-embed\"><div class=\"wp-block-embed__wrapper\">"
      + env.escUrl(src) + "</div></figure>"
  }

  /* ---------------- Image disambiguation ---------------- */

  /** A direct child that still lets a <p> be read as an image: an a, img or br element, blank text, or a non-text node. */
  predicate AllowedInImageParagraph(c: Node) {
    match c
    case Elem(name, _, _) => name == "a" || name == "img" || name == "br"
    case Text(s) => Trim(s) == ""
    case Other(_) => true
  }

  predicate AllAllowedInImageParagraph(ns: seq<Node>) {
    forall k | 0 <= k < |ns| :: AllowedInImageParagraph(ns[k])
  }

  /** The src of the first img descendant of n, "" when there is none. */
  function FirstImgSrc(n: Node): string {
    match First(ElementsByTagName(n, "img"))
    case Some(img) => GetAttribute(AttrsOf(img), "src")
    case None => ""
  }

  /** The alt of the first img descendant of n, as AltOf reads it. */
  function FirstImgAlt(n: Node): string {
    match First(ElementsByTagName(n, "img"))
    case Some(img) => AltOf(AttrsOf(img))
    case None => ""
  }

  /** maybe_image_block_from_p: the paragraph's first img, unless the paragraph holds anything else. */
  function MaybeImageFromP(env: Env, p: Node, chain: seq<seq<Attr>>): Option<Block> {
    if !AllAllowedInImageParagraph(ChildrenOf(p)) then None
    else
      var src := FirstImgSrc(p);
      if !Truthy(src) then None
      else Some(BuildImageBlock(env, src, FirstImgAlt(p), "", DetectAlign(chain), "none", ""))
  }

  /** The hosts of Blogger's full-size image links. */
  predicate IsBloggerImageHost(h: string) {
    h == "blogger.googleusercontent.com" || h == "1.bp.blogspot.com" || h == "2.bp.blogspot.com" ||
    h == "3.bp.blogspot.com" || h == "4.bp.blogspot.com"
  }

  /** The pattern /s\d{k}/ matches at index i of the path. */
  predicate SizeSegmentAt(path: string, i: nat, k: nat) {
    i + k + 3 <= |path| && path[i] == '/' && path[i + 1] == 's' &&
    AllDigits(path[i + 2..i + 2 + k]) && path[i + 2 + k] == '/'
  }

  /** preg_match('~/s\d{2,4}/~', $path) */
  predicate HasSizeSegment(path: string) {
    exists i: nat, k: nat | 2 <= k <= 4 && i < |path| :: SizeSegmentAt(path, i, k)
  }

  /** is_blogger_original_img: a link to the full-size copy of a Blogger-hosted image. */
  predicate IsBloggerOriginalImg(href: string) {
    var host := Url.Host(href);
    Truthy(href) && Truthy(host) && IsBloggerImageHost(host) && HasSizeSegment(Url.Path(href))
  }

  /** maybe_image_block_from_anchor: an <a> around nothing but an image becomes that image. */
  function MaybeImageFromAnchor(env: Env, a: Node, chain: seq<seq<Attr>>): Option<Block> {
    match First(ElementsByTagName(a, "img"))
    case None => None
    case Some(img) =>
      if Trim(TextContent(a)) != TextContent(img) then None
      else
        var src := GetAttribute(AttrsOf(img), "src");
        if !Truthy(src) then None
        else
          var href := GetAttribute(AttrsOf(a), "href");
          var align := DetectAlign(chain);
          if Truthy(href) && !IsBloggerOriginalImg(href) then
            Some(BuildImageBlock(env, src, AltOf(AttrsOf(img)), "", align, "custom", href))
          else
            Some(BuildImageBlock(env, src, AltOf(AttrsOf(img)), "", align, "none", ""))
  }

  /** The caption of a two-row image table: the trimmed text of the second row's first td. */
  function TableCaption(row: Node): string {
    match First(ElementsByTagName(row, "td"))
    case Some(td) => Trim(TextContent(td))
    case None => ""
  }

  /** The alignment of a two-row image table: center when the first row's first td says so. */
  function TableAlign(row: Node): string {
    match First(ElementsByTagName(row, "td"))
    case Some(td) =>
      if HasAttribute(AttrsOf(td), "style") && ContainsCI(GetAttribute(AttrsOf(td), "style"), "text-align: center")
      then "center" else ""
    case None => ""
  }

  /** maybe_image_block_from_table: Blogger's captioned image, a table of exactly two rows. */
  function MaybeImageFromTable(env: Env, t: Node): Option<Block> {
    var rows := ElementsByTagName(t, "tr");
    if |rows| != 2 then None
    else
      var src := FirstImgSrc(rows[0]);
      if !Truthy(src) then None
      else Some(BuildImageBlock(env, src, FirstImgAlt(rows[0]), TableCaption(rows[1]), TableAlign(rows[0]), "none", ""))
  }

  /* ---------------- process_node ---------------- */

  predicate IsInlineName(name: string) {
    name == "b" || name == "strong" || name == "i" || name == "em" || name == "u" || name == "span"
  }

  /** The element names process_node gives a case of their own; every other element is spliced like a div. */
  predicate IsDispatched(name: string) {
    IsHeadingName(name) || IsInlineName(name) || name == "p" || name == "ul" || name == "ol" || name == "a" ||
    name == "blockquote" || name == "img" || name == "pre" || name == "table" || name == "figure" || name == "iframe"
  }

  function OptionToSeq(o: Option<Block>): (r: seq<Block>)
    ensures |r| <= 1
  {
    match o
    case Some(b) => [b]
    case None => []
  }

  /**
   * The blocks one child contributes to its parent's list; anc is the
   * attribute chain of the parent, nearest first. The switch of
   * process_node compares the tag name with distinct constants, so testing
   * figure and the default case first selects the same branch.
   */
  function ProcessChild(env: Env, c: Node, anc: seq<seq<Attr>>): seq<Block>
    decreases c, 1
  {
    match c
    case Text(s) => if Trim(s) != "" then [ParagraphBlock(env, Trim(s), "")] else []
    case Other(_) => []
    case Elem(name, attrs, children) =>
      if name == "figure" then ProcessFigure(env, c, anc)
      else if !IsDispatched(name) then ProcessChildren(env, children, [attrs] + anc)
      else DispatchedBlocks(env, c, [attrs] + anc)
  }

  /** The cases of the switch that build blocks without recursing; chain starts with the element's own attributes. */
  function DispatchedBlocks(env: Env, c: Node, chain: seq<seq<Attr>>): seq<Block>
    requires c.Elem?
  {
    var name := c.name;
    if IsHeadingName(name) then [HeadingBlock(env, name, c)]
    else if name == "p" then [MaybeImageFromP(env, c, chain).GetOr(ParagraphBlock(env, InnerHtml(env, c), DetectAlign(chain)))]
    else if IsInlineName(name) then [ParagraphBlock(env, env.saveHtml(c), DetectAlign(chain))]
    else if name == "ul" then [ListBlock(env, c, false)]
    else if name == "ol" then [ListBlock(env, c, true)]
    else if name == "a" then [MaybeImageFromAnchor(env, c, chain).GetOr(ParagraphBlock(env, env.saveHtml(c), DetectAlign(chain)))]
    else if name == "blockquote" then [QuoteBlock(env, c)]
    else if name == "img" then OptionToSeq(CreateImageBlock(env, c.attrs))
    else if name == "pre" then [CodeBlock(env, c)]
    else if name == "table" then [MaybeImageFromTable(env, c).GetOr(TableBlock(env, c))]
    else OptionToSeq(CreateEmbedBlock(env, c.attrs))
  }

  /** process_node's loop: the blocks of each child, in order. */
  function ProcessChildren(env: Env, ns: seq<Node>, anc: seq<seq<Attr>>): seq<Block>
    decreases ns, 2
  {
    if ns == [] then [] else ProcessChild(env, ns[0], anc) + ProcessChildren(env, ns[1..], anc)
  }

  /**
   * process_figure: the first img descendant as an image (even when that
   * fails), else an embed for the first iframe, else the figure's children.
   */
  function ProcessFigure(env: Env, f: Node, anc: seq<seq<Attr>>): seq<Block>
    decreases f, 0
  {
    var imgs := ElementsByTagName(f, "img");
    var iframes := ElementsByTagName(f, "iframe");
    if |imgs| > 0 then [CreateImageBlock(env, AttrsOf(imgs[0])).GetOr(NoBlock)]
    else if |iframes| > 0 && CreateEmbedBlock(env, AttrsOf(iframes[0])).Some? then
      [CreateEmbedBlock(env, AttrsOf(iframes[0])).value]
    else match f
      case Elem(_, attrs, children) => ProcessChildren(env, children, [attrs] + anc)
      case _ => []
  }

  /** process_node on n, whose element ancestors have the attribute chain anc. */
  function NodeBlocks(env: Env, n: Node, anc: seq<seq<Attr>>): seq<Block> {
    ProcessChildren(env, ChildrenOf(n), [AttrsOf(n)] + anc)
  }

  lemma {:induction false} ProcessChildrenAppend(env: Env, a: seq<Node>, b: seq<Node>, anc: seq<seq<Attr>>)
    ensures ProcessChildren(env, a + b, anc) == ProcessChildren(env, a, anc) + ProcessChildren(env, b, anc)
  {
    if a == [] {
      assert a + b == b;
    } else {
      assert (a + b)[0] == a[0] && (a + b)[1..] == a[1..] + b;
      ProcessChildrenAppend(env, a[1..], b, anc);
    }
  }

  lemma ProcessChildrenSingle(env: Env, c: Node, anc: seq<seq<Attr>>)
    ensures ProcessChildren(env, [c], anc) == ProcessChild(env, c, anc)
  {
    assert [c][1..] == [];
  }

  lemma ProcessChildrenSnoc(env: Env, ns: seq<Node>, i: nat, anc: seq<seq<Attr>>)
    requires i < |ns|
    ensures ProcessChildren(env, ns[..i + 1], anc) == ProcessChildren(env, ns[..i], anc) + ProcessChild(env, ns[i], anc)
  {
    assert ns[..i + 1] == ns[..i] + [ns[i]];
    ProcessChildrenAppend(env, ns[..i], [ns[i]], anc);
    assert [ns[i]][1..] == [];
  }

  /** The loop of process_node: the blocks of each child, appended in child order. */
  method ProcessNode(env: Env, n: Node, anc: seq<seq<Attr>>) returns (blocks: seq<Block>)
    ensures blocks == NodeBlocks(env, n, anc)
    decreases n, 0
  {
    var ns := if n.Elem? then n.children else [];
    var chain := [AttrsOf(n)] + anc;
    blocks := [];
    var i := 0;
    while i < |ns|
      invariant 0 <= i <= |ns|
      invariant blocks == ProcessChildren(env, ns[..i], chain)
    {
      var child := ns[i];
      var step := ProcessChildNode(env, child, chain);
      ProcessChildrenSnoc(env, ns, i, chain);
      blocks := blocks + step;
      i := i + 1;
    }
    assert ns[..i] == ns;
  }

  /** One turn of process_node's loop: the switch on the child's node type and name. */
  method ProcessChildNode(env: Env, child: Node, chain: seq<seq<Attr>>) returns (step: seq<Block>)
    ensures step == ProcessChild(env, child, chain)
    decreases child, 3
  {
    match child {
      case Text(s) =>
        var text := Trim(s);
        step := if text != "" then [ParagraphBlock(env, text, "")] else [];
      case Other(_) =>
        step := [];
      case Elem(name, attrs, children) =>
        if name == "figure" || !IsDispatched(name) {
          step := ProcessContainer(env, child, chain);
        } else {
          step := ProcessLeaf(env, child, chain);
        }
    }
  }

  /** The cases of the switch that recurse: figure, div and every element without a case of its own. */
  method ProcessContainer(env: Env, child: Node, chain: seq<seq<Attr>>) returns (step: seq<Block>)
    requires child.Elem? && (child.name == "figure" || !IsDispatched(child.name))
    ensures step == ProcessChild(env, child, chain)
    decreases child, 2
  {
    if child.name == "figure" {
      FigureIsProcessFigure(env, child.attrs, child.children, chain);
      step := ProcessFigureNode(env, child, chain);
    } else {
      SplicedChild(env, child.name, child.attrs, child.children, chain);
      step := ProcessNode(env, child, chain);
    }
  }

  /** process_figure. */
  method ProcessFigureNode(env: Env, f: Node, anc: seq<seq<Attr>>) returns (step: seq<Block>)
    requires f.Elem?
    ensures step == ProcessFigure(env, f, anc)
    decreases f, 1
  {
    var imgs := ElementsByTagName(f, "img");
    var iframes := ElementsByTagName(f, "iframe");
    if |imgs| > 0 {
      step := [CreateImageBlock(env, AttrsOf(imgs[0])).GetOr(NoBlock)];
    } else if |iframes| > 0 && CreateEmbedBlock(env, AttrsOf(iframes[0])).Some? {
      step := [CreateEmbedBlock(env, AttrsOf(iframes[0])).value];
    } else {
      step := ProcessNode(env, f, anc);
    }
  }

  /** The cases of the switch that build blocks directly. */
  method ProcessLeaf(env: Env, child: Node, chain: seq<seq<Attr>>) returns (step: seq<Block>)
    requires child.Elem? && child.name != "figure" && IsDispatched(child.name)
    ensures step == DispatchedBlocks(env, child, [child.attrs] + chain)
  {
    var name := child.name;
    var here := [child.attrs] + chain;
    if IsHeadingName(name) {
      step := [HeadingBlock(env, name, child)];
    } else if name == "p" {
      var img := MaybeImageFromP(env, child, here);
      if img.Some? {
        step := [img.value];
      } else {
        var align := DetectAlignWalk(here);
        step := [ParagraphBlock(env, InnerHtml(env, child), align)];
      }
    } else if IsInlineName(name) {
      var align := DetectAlignWalk(here);
      step := [ParagraphBlock(env, env.saveHtml(child), align)];
    } else if name == "ul" {
      step := [ListBlock(env, child, false)];
    } else if name == "ol" {
      step := [ListBlock(env, child, true)];
    } else if name == "a" {
      var img := MaybeImageFromAnchor(env, child, here);
      if img.Some? {
        step := [img.value];
      } else {
        var align := DetectAlignWalk(here);
        step := [ParagraphBlock(env, env.saveHtml(child), align)];
      }
    } else if name == "blockquote" {
      step := [QuoteBlock(env, child)];
    } else if name == "img" {
      var b := CreateImageBlock(env, child.attrs);
      step := if b.Some? then [b.value] else [];
    } else if name == "pre" {
      step := [CodeBlock(env, child)];
    } else if name == "table" {
      var img := MaybeImageFromTable(env, child);
      step := if img.Some? then [img.value] else [TableBlock(env, child)];
    } else {
      var b := CreateEmbedBlock(env, child.attrs);
      step := if b.Some? then [b.value] else [];
    }
  }

  /* ---------------- What the switch yields ---------------- */

  /** A text child yields nothing when blank, otherwise one unaligned paragraph of its trimmed text. */
  lemma TextChildBlocks(env: Env, s: string, anc: seq<seq<Attr>>)
    ensures IsBlank(s) ==> ProcessChild(env, Text(s), anc) == []
    ensures !IsBlank(s) ==> ProcessChild(env, Text(s), anc) == [ParagraphBlock(env, Trim(s), "")]
    ensures !IsBlank(s) ==> ProcessChild(env, Text(s), anc)[0].name == "core/paragraph" &&
                            ProcessChild(env, Text(s), anc)[0].attrs == []
  {
  }

  lemma IntCastDigit(c: char)
    requires IsDigit(c)
    ensures Utils.IntCast([c]) == DigitValue(c)
  {
    assert Utils.LeadingBlanks([c]) == [c];
    assert Utils.LeadingDigits([c]) == [c] by {
      assert [c][1..] == [];
    }
    assert DigitsValue([c]) == DigitValue(c) by {
      assert [c][..0] == [];
    }
  }

  /** h1 to h6 yield one heading whose level is the digit of the tag name. */
  lemma HeadingChildLevel(env: Env, name: string, attrs: seq<Attr>, children: seq<Node>, anc: seq<seq<Attr>>)
    requires IsHeadingName(name)
    ensures IsDigit(name[1]) && 1 <= DigitValue(name[1]) <= 6
    ensures var r := ProcessChild(env, Elem(name, attrs, children), anc);
      |r| == 1 && r[0].Block? && r[0].name == "core/heading" &&
      r[0].attrs == [BlockAttr(LevelKey, Int(DigitValue(name[1])))]
  {
    assert name[1..] == [name[1]];
    IntCastDigit(name[1]);
  }

  /** figure goes to process_figure with the chain of its parent. */
  lemma FigureIsProcessFigure(env: Env, attrs: seq<Attr>, children: seq<Node>, anc: seq<seq<Attr>>)
    ensures ProcessChild(env, Elem("figure", attrs, children), anc) == ProcessFigure(env, Elem("figure", attrs, children), anc)
  {
  }

  /** div and every element without a case of its own splice in their children's blocks. */
  lemma SplicedChild(env: Env, name: string, attrs: seq<Attr>, children: seq<Node>, anc: seq<seq<Attr>>)
    requires !IsDispatched(name)
    ensures ProcessChild(env, Elem(name, attrs, children), anc) == ProcessChildren(env, children, [attrs] + anc)
  {
  }

  /** A div wrapped around children changes nothing: the parent gets their blocks in their place. */
  lemma SplicedInPlace(env: Env, before: seq<Node>, name: string, attrs: seq<Attr>, children: seq<Node>,
                       after: seq<Node>, anc: seq<seq<Attr>>)
    requires !IsDispatched(name)
    ensures ProcessChildren(env, before + [Elem(name, attrs, children)] + after, anc) ==
            ProcessChildren(env, before, anc) + ProcessChildren(env, children, [attrs] + anc) + ProcessChildren(env, after, anc)
  {
    var d := Elem(name, attrs, children);
    ProcessChildrenAppend(env, before + [d], after, anc);
    ProcessChildrenAppend(env, before, [d], anc);
    ProcessChildrenSingle(env, d, anc);
    SplicedChild(env, name, attrs, children, anc);
  }

  /** The inline names are dispatched, and none of them is a heading, p or figure. */
  lemma InlineNameFacts(name: string)
    requires IsInlineName(name)
    ensures IsDispatched(name) && name != "figure" && !IsHeadingName(name) && name != "p"
  {
    if name == "b" || name == "i" || name == "u" {
      assert |name| == 1;
    } else {
      assert name[0] == 's' || name[0] == 'e';
    }
  }

  /** An inline element becomes one paragraph of its own saved HTML, aligned as detect_align says. */
  lemma InlineChildParagraph(env: Env, c: Node, anc: seq<seq<Attr>>)
    requires c.Elem? && IsInlineName(c.name)
    ensures ProcessChild(env, c, anc) == [ParagraphBlock(env, env.saveHtml(c), DetectAlign([c.attrs] + anc))]
  {
    InlineNameFacts(c.name);
    assert ProcessChild(env, c, anc) == DispatchedBlocks(env, c, [c.attrs] + anc);
  }

  /** So does an anchor that is not an image link. */
  lemma AnchorChildParagraph(env: Env, c: Node, anc: seq<seq<Attr>>)
    requires c.Elem? && c.name == "a" && MaybeImageFromAnchor(env, c, [c.attrs] + anc).None?
    ensures ProcessChild(env, c, anc) == [ParagraphBlock(env, env.saveHtml(c), DetectAlign([c.attrs] + anc))]
  {
    assert !IsHeadingName("a") && !IsInlineName("a") && "a" != "p" && "a" != "figure";
    assert ProcessChild(env, c, anc) == DispatchedBlocks(env, c, [c.attrs] + anc);
  }

  /** A paragraph carries an align attribute exactly when an alignment was found, and then that one. */
  lemma ParagraphAlign(env: Env, html: string, chain: seq<seq<Attr>>)
    ensures var b := ParagraphBlock(env, html, DetectAlign(chain));
      (HasKey(b.attrs, AlignKey) <==> DetectAlign(chain) != "") &&
      (DetectAlign(chain) != "" ==> Lookup(b.attrs, AlignKey) == Some(Str(DetectAlign(chain))))
  {
  }

  /** A <p> yields one block: the image when it is an image paragraph, else a paragraph of its inner HTML. */
  lemma ParagraphChild(env: Env, p: Node, anc: seq<seq<Attr>>)
    requires p.Elem? && p.name == "p"
    ensures var r := ProcessChild(env, p, anc);
      |r| == 1 && r[0].Block? &&
      (r[0].name == "core/image" <==> MaybeImageFromP(env, p, [p.attrs] + anc).Some?) &&
      (MaybeImageFromP(env, p, [p.attrs] + anc).None? ==>
        r[0] == ParagraphBlock(env, InnerHtml(env, p), DetectAlign([p.attrs] + anc)))
  {
  }

  /* ---------------- What the builders promise ---------------- */

  /** The keys of build_image_block's attrs, in insertion order. */
  lemma ImageAttrsKeys(src: string, id: nat, align: string, className: string, linkDest: string, href: string)
    ensures var k := ImageAttrs(src, id, align, className, linkDest, href);
      (|k| == 6 <==> KeepsLink(linkDest, href)) && (|k| == 5 <==> !KeepsLink(linkDest, href)) &&
      k[0] == BlockAttr(SizeSlugKey, Str("full")) && k[1] == BlockAttr(LinkDestinationKey, Str(linkDest)) &&
      k[2] == BlockAttr(AlignKey, Str(if Truthy(align) then align else "none")) && k[3] == BlockAttr(ClassNameKey, Str(className)) &&
      k[4] == (if id != 0 then BlockAttr(IdKey, Int(id)) else BlockAttr(UrlKey, Str(src))) &&
      (|k| == 6 ==> k[5] == BlockAttr(HrefKey, Str(href)))
  {
    var k := ImageAttrs(src, id, align, className, linkDest, href);
    var e := if id != 0 then BlockAttr(IdKey, Int(id)) else BlockAttr(UrlKey, Str(src));
    var a := BlockAttr(AlignKey, Str(if Truthy(align) then align else "none"));
    var c := BlockAttr(ClassNameKey, Str(className));
    var head := [BlockAttr(SizeSlugKey, Str("full")), BlockAttr(LinkDestinationKey, Str(linkDest)), a, c, e];
    if KeepsLink(linkDest, href) {
      assert k == head + [BlockAttr(HrefKey, Str(href))];
    } else {
      assert k == head;
    }
  }

  /** The attrs of an image block: exactly one of id and url, href only for a kept link, align defaulting to none. */
  lemma ImageAttrsFacts(src: string, id: nat, align: string, className: string, linkDest: string, href: string)
    ensures var k := ImageAttrs(src, id, align, className, linkDest, href);
      DistinctKeys(k) &&
      (HasKey(k, IdKey) <==> id != 0) && (HasKey(k, UrlKey) <==> id == 0) &&
      (id != 0 ==> Lookup(k, IdKey) == Some(Int(id))) &&
      (id == 0 ==> Lookup(k, UrlKey) == Some(Str(src))) &&
      (HasKey(k, HrefKey) <==> KeepsLink(linkDest, href)) &&
      (KeepsLink(linkDest, href) ==> Lookup(k, HrefKey) == Some(Str(href))) &&
      Lookup(k, AlignKey) == Some(Str(if Truthy(align) then align else "none")) &&
      Lookup(k, LinkDestinationKey) == Some(Str(linkDest)) &&
      Lookup(k, SizeSlugKey) == Some(Str("full"))
  {
    ImageAttrsKeys(src, id, align, className, linkDest, href);
    ImageAttrsShape(ImageAttrs(src, id, align, className, linkDest, href), src, id, align, linkDest, href);
  }

  lemma ImageAttrsShape(k: seq<BlockAttr>, src: string, id: nat, align: string, linkDest: string, href: string)
    requires (|k| == 6 <==> KeepsLink(linkDest, href)) && (|k| == 5 <==> !KeepsLink(linkDest, href))
    requires k[0] == BlockAttr(SizeSlugKey, Str("full")) && k[1] == BlockAttr(LinkDestinationKey, Str(linkDest))
    requires k[2] == BlockAttr(AlignKey, Str(if Truthy(align) then align else "none")) && k[3].key == ClassNameKey
    requires k[4] == (if id != 0 then BlockAttr(IdKey, Int(id)) else BlockAttr(UrlKey, Str(src)))
    requires |k| == 6 ==> k[5] == BlockAttr(HrefKey, Str(href))
    ensures DistinctKeys(k) &&
      (HasKey(k, IdKey) <==> id != 0) && (HasKey(k, UrlKey) <==> id == 0) &&
      (id != 0 ==> Lookup(k, IdKey) == Some(Int(id))) &&
      (id == 0 ==> Lookup(k, UrlKey) == Some(Str(src))) &&
      (HasKey(k, HrefKey) <==> KeepsLink(linkDest, href)) &&
      (KeepsLink(linkDest, href) ==> Lookup(k, HrefKey) == Some(Str(href))) &&
      Lookup(k, AlignKey) == Some(Str(if Truthy(align) then align else "none")) &&
      Lookup(k, LinkDestinationKey) == Some(Str(linkDest)) &&
      Lookup(k, SizeSlugKey) == Some(Str("full"))
  {
    ImageAttrsKeySet(k, src, id, align, linkDest, href);
    LookupAt(k, SizeSlugKey, 0);
    LookupAt(k, LinkDestinationKey, 1);
    LookupAt(k, AlignKey, 2);
    LookupAt(k, k[4].key, 4);
    if |k| == 6 {
      LookupAt(k, HrefKey, 5);
    }
  }

  /** Which keys the attrs hold, each once. */
  lemma ImageAttrsKeySet(k: seq<BlockAttr>, src: string, id: nat, align: string, linkDest: string, href: string)
    requires (|k| == 6 <==> KeepsLink(linkDest, href)) && (|k| == 5 <==> !KeepsLink(linkDest, href))
    requires k[0] == BlockAttr(SizeSlugKey, Str("full")) && k[1] == BlockAttr(LinkDestinationKey, Str(linkDest))
    requires k[2] == BlockAttr(AlignKey, Str(if Truthy(align) then align else "none")) && k[3].key == ClassNameKey
    requires k[4] == (if id != 0 then BlockAttr(IdKey, Int(id)) else BlockAttr(UrlKey, Str(src)))
    requires |k| == 6 ==> k[5] == BlockAttr(HrefKey, Str(href))
    ensures DistinctKeys(k)
    ensures forall j | 0 <= j < |k| && j != 4 :: k[j].key != UrlKey && k[j].key != IdKey
    ensures (HasKey(k, IdKey) <==> id != 0) && (HasKey(k, UrlKey) <==> id == 0)
    ensures HasKey(k, HrefKey) <==> KeepsLink(linkDest, href)
  {
    assert forall j | 0 <= j < |k| && j != 4 :: k[j].key != UrlKey && k[j].key != IdKey;
    assert forall j | 0 <= j < 5 :: k[j].key != HrefKey;
  }

  /** What the callers of build_image_block rely on: its link destination, href, url and align attrs. */
  lemma ImageBlockFacts(env: Env, src: string, alt: string, caption: string, align: string, linkDest: string, href: string)
    ensures var b := BuildImageBlock(env, src, alt, caption, align, linkDest, href);
      b.Block? && b.name == "core/image" &&
      Lookup(b.attrs, LinkDestinationKey) == Some(Str(linkDest)) &&
      (HasKey(b.attrs, HrefKey) <==> KeepsLink(linkDest, href)) &&
      (env.attachmentId(src) == 0 ==> Lookup(b.attrs, UrlKey) == Some(Str(src))) &&
      Lookup(b.attrs, AlignKey) == Some(Str(if Truthy(align) then align else "none"))
  {
    ImageAttrsFacts(src, env.attachmentId(src), align, ImageClassName(align), linkDest, href);
  }

  /** The figure ends with the caption markup, which is empty exactly when the caption is. */
  lemma ImageHtmlCaption(env: Env, src: string, alt: string, caption: string, align: string,
                         linkDest: string, href: string)
    ensures var h := ImageHtml(env, src, alt, caption, align, linkDest, href);
      var tail := FigCaption(env, caption) + "</figure>";
      |tail| <= |h| && h[|h| - |tail|..] == tail && (FigCaption(env, caption) == "" <==> caption == "")
  {
    var head := FigureOpen(env, src, alt, align, linkDest, href);
    var tail := FigureClose(env, caption);
    assert (head + tail)[|head + tail| - |tail|..] == tail;
  }

  /** p: an image block exactly when every direct child may sit beside an image and the first img has a src. */
  lemma ImageParagraphIff(env: Env, p: Node, chain: seq<seq<Attr>>)
    ensures MaybeImageFromP(env, p, chain).Some? <==>
      AllAllowedInImageParagraph(ChildrenOf(p)) && Truthy(FirstImgSrc(p))
    ensures MaybeImageFromP(env, p, chain).Some? ==>
      var b := MaybeImageFromP(env, p, chain).value;
      Lookup(b.attrs, LinkDestinationKey) == Some(Str("none")) && !HasKey(b.attrs, HrefKey) &&
      (env.attachmentId(FirstImgSrc(p)) == 0 ==> Lookup(b.attrs, UrlKey) == Some(Str(FirstImgSrc(p)))) &&
      Lookup(b.attrs, AlignKey) == Some(Str(if DetectAlign(chain) != "" then DetectAlign(chain) else "none"))
  {
    if AllAllowedInImageParagraph(ChildrenOf(p)) && Truthy(FirstImgSrc(p)) {
      var align := DetectAlign(chain);
      assert Truthy(align) <==> align != "";
      ImageBlockFacts(env, FirstImgSrc(p), FirstImgAlt(p), "", align, "none", "");
    }
  }

  /**
   * a: an image block exactly when it has an img with a src and no text of
   * its own; the link is kept exactly when href is set and is not a
   * Blogger full-size image link.
   */
  lemma AnchorImageIff(env: Env, a: Node, chain: seq<seq<Attr>>)
    ensures var imgs := ElementsByTagName(a, "img");
      MaybeImageFromAnchor(env, a, chain).Some? <==>
        |imgs| > 0 && Trim(TextContent(a)) == TextContent(imgs[0]) && Truthy(FirstImgSrc(a))
    ensures var r := MaybeImageFromAnchor(env, a, chain);
      var href := GetAttribute(AttrsOf(a), "href");
      r.Some? ==>
        (Lookup(r.value.attrs, LinkDestinationKey) == Some(Str("custom")) <==> Truthy(href) && !IsBloggerOriginalImg(href)) &&
        (HasKey(r.value.attrs, HrefKey) <==> Truthy(href) && !IsBloggerOriginalImg(href))
  {
    var r := MaybeImageFromAnchor(env, a, chain);
    if r.Some? {
      var img := ElementsByTagName(a, "img")[0];
      var src := GetAttribute(AttrsOf(img), "src");
      var href := GetAttribute(AttrsOf(a), "href");
      if Truthy(href) && !IsBloggerOriginalImg(href) {
        ImageBlockFacts(env, src, AltOf(AttrsOf(img)), "", DetectAlign(chain), "custom", href);
      } else {
        ImageBlockFacts(env, src, AltOf(AttrsOf(img)), "", DetectAlign(chain), "none", "");
      }
    }
  }

  /** table: an image block exactly when it has two rows and the first holds an img with a src. */
  lemma TableImageIff(env: Env, t: Node)
    ensures var rows := ElementsByTagName(t, "tr");
      MaybeImageFromTable(env, t).Some? <==> |rows| == 2 && Truthy(FirstImgSrc(rows[0]))
  {
  }

  /** The image of a two-row table is centred only when the first cell's style says so, and it carries no link. */
  lemma TableImageAlign(env: Env, t: Node)
    requires MaybeImageFromTable(env, t).Some?
    ensures var rows := ElementsByTagName(t, "tr");
      var b := MaybeImageFromTable(env, t).value;
      var cells := ElementsByTagName(rows[0], "td");
      (Lookup(b.attrs, AlignKey) == Some(Str("center")) <==>
        |cells| > 0 && ContainsCI(GetAttribute(AttrsOf(cells[0]), "style"), "text-align: center")) &&
      Lookup(b.attrs, LinkDestinationKey) == Some(Str("none"))
  {
    var rows := ElementsByTagName(t, "tr");
    var src := FirstImgSrc(rows[0]);
    var align := TableAlign(rows[0]);
    var cells := ElementsByTagName(rows[0], "td");
    if |cells| > 0 && ContainsCI(GetAttribute(AttrsOf(cells[0]), "style"), "text-align: center") {
      assert HasAttribute(AttrsOf(cells[0]), "style");
    }
    ImageBlockFacts(env, src, FirstImgAlt(rows[0]), TableCaption(rows[1]), align, "none", "");
  }

  /** The caption of a two-row table's image, the trimmed text of the second row's first cell, ends the figure. */
  lemma TableImageCaption(env: Env, t: Node)
    requires MaybeImageFromTable(env, t).Some?
    ensures var rows := ElementsByTagName(t, "tr");
      var b := MaybeImageFromTable(env, t).value;
      var tail := FigCaption(env, TableCaption(rows[1])) + "</figure>";
      |tail| <= |b.innerHtml| && b.innerHtml[|b.innerHtml| - |tail|..] == tail
  {
    var rows := ElementsByTagName(t, "tr");
    var b := MaybeImageFromTable(env, t).value;
    assert b.innerHtml == ImageHtml(env, FirstImgSrc(rows[0]), FirstImgAlt(rows[0]), TableCaption(rows[1]), TableAlign(rows[0]), "none", "");
    ImageHtmlCaption(env, FirstImgSrc(rows[0]), FirstImgAlt(rows[0]), TableCaption(rows[1]), TableAlign(rows[0]), "none", "");
  }

  /** iframe: no block without a src; otherwise url is the src and the provider is youtube, vimeo or generic, in that order. */
  lemma EmbedBlockProvider(env: Env, attrs: seq<Attr>)
    ensures CreateEmbedBlock(env, attrs).None? <==> !Truthy(GetAttribute(attrs, "src"))
    ensures var r := CreateEmbedBlock(env, attrs);
      var src := GetAttribute(attrs, "src");
      r.Some? ==>
        Lookup(r.value.attrs, UrlKey) == Some(Str(src)) && DistinctKeys(r.value.attrs) &&
        (Contains(src, "youtu") ==> r.value.name == "core-embed/youtube") &&
        (!Contains(src, "youtu") && Contains(src, "vimeo.com") ==> r.value.name == "core-embed/vimeo") &&
        (!Contains(src, "youtu") && !Contains(src, "vimeo.com") ==> r.value.name == "core/embed")
  {
    var src := GetAttribute(attrs, "src");
    EmbedAttrsFacts(src, EmbedProvider(src));
    EmbedNames();
  }

  lemma EmbedNames()
    ensures "core-embed/" + "youtube" == "core-embed/youtube"
    ensures "core-embed/" + "vimeo" == "core-embed/vimeo"
    ensures Truthy("youtube") && Truthy("vimeo") && !Truthy("")
  {
  }

  lemma EmbedAttrsFacts(src: string, provider: string)
    ensures Lookup(EmbedAttrs(src, provider), UrlKey) == Some(Str(src))
    ensures DistinctKeys(EmbedAttrs(src, provider))
  {
    LookupAt(EmbedAttrs(src, provider), UrlKey, 0);
  }

  /** An iframe child yields an embed block, or nothing when it has no src. */
  lemma IframeChild(env: Env, attrs: seq<Attr>, children: seq<Node>, anc: seq<seq<Attr>>)
    ensures var r := ProcessChild(env, Elem("iframe", attrs, children), anc);
      (r == [] <==> !Truthy(GetAttribute(attrs, "src"))) && |r| <= 1
  {
  }

  /**
   * figure: an img descendant always gives a one-element list, and that
   * element is PHP false when the first img has no src.
   */
  lemma FigureChild(env: Env, f: Node, anc: seq<seq<Attr>>)
    requires f.Elem? && f.name == "figure"
    ensures var imgs := ElementsByTagName(f, "img");
      |imgs| > 0 ==>
        |ProcessChild(env, f, anc)| == 1 &&
        (ProcessChild(env, f, anc) == [NoBlock] <==> !Truthy(GetAttribute(AttrsOf(imgs[0]), "src")))
  {
  }

  /** ul and ol: one list item per li descendant, nested ones included, and the ordered flag. */
  lemma ListChildItems(env: Env, c: Node, anc: seq<seq<Attr>>)
    requires c.Elem? && (c.name == "ul" || c.name == "ol")
    ensures var r := ProcessChild(env, c, anc);
      var lis := ElementsByTagName(c, "li");
      |r| == 1 && r[0].name == "core/list" && r[0].attrs == [BlockAttr(OrderedKey, Bool(c.name == "ol"))] &&
      |r[0].innerBlocks| == |lis| &&
      forall k | 0 <= k < |lis| :: r[0].innerBlocks[k].name == "core/list-item" &&
        r[0].innerBlocks[k].innerContent == [env.kses(InnerHtml(env, lis[k]))]
  {
  }

  /* ---------------- clean_content and the entrance ---------------- */

  const FooterOpen := "<div class=\"blogger-post-footer\">"
  const CommentFromOpen := "<div class=\"blogger-comment-from\">"

  /**
   * preg_replace('/OPEN.*?<\/div>/s', '', $s): each occurrence of open,
   * left to right, is removed together with everything up to and including
   * the first </div> after it; an open with no </div> after it stays.
   */
  function RemoveDelimited(s: string, open: string): (r: string)
    requires |open| > 0
    ensures |r| <= |s|
    decreases |s|
  {
    if |s| < |open| then s
    else if StartsWith(s, open, false) && IndexOf(s[|open|..], "</div>", false) >= 0 then
      RemoveDelimited(s[|open| + IndexOf(s[|open|..], "</div>", false) + 6..], open)
    else [s[0]] + RemoveDelimited(s[1..], open)
  }

  lemma {:induction false} RemoveDelimitedAbsent(s: string, open: string)
    requires |open| > 0 && !Contains(s, open)
    ensures RemoveDelimited(s, open) == s
    decreases |s|
  {
    if |s| >= |open| {
      assert s[0..] == s;
      if Contains(s[1..], open) {
        OccursInTail(s, open, false, 1);
      }
      RemoveDelimitedAbsent(s[1..], open);
    }
  }

  /** PCRE's \s: space, tab, line feed, vertical tab, form feed, carriage return. */
  predicate IsRegexSpace(c: char) {
    c == ' ' || c == '\t' || c == '\n' || c == '\U{000B}' || c == '\U{000C}' || c == '\r'
  }

  /** The length of the run of \s characters s starts with. */
  function SpaceRun(s: string): (n: nat)
    ensures n <= |s| && forall k | 0 <= k < n :: IsRegexSpace(s[k])
    ensures n < |s| ==> !IsRegexSpace(s[n])
  {
    if s != [] && IsRegexSpace(s[0]) then 1 + SpaceRun(s[1..]) else 0
  }

  /** The length of the match of /<p>\s*<\/p>/i at the start of s, 0 when it does not match there. */
  function EmptyParagraphAt(s: string): (n: nat)
    ensures n == 0 || 7 <= n <= |s|
  {
    if StartsWith(s, "<p>", true) && StartsWith(s[3 + SpaceRun(s[3..])..], "</p>", true)
    then 3 + SpaceRun(s[3..]) + 4 else 0
  }

  /** preg_replace('/<p>\s*<\/p>/i', '', $s): one left-to-right pass. */
  function RemoveEmptyParagraphs(s: string): (r: string)
    ensures |r| <= |s|
    decreases |s|
  {
    if s == [] then []
    else if EmptyParagraphAt(s) > 0 then RemoveEmptyParagraphs(s[EmptyParagraphAt(s)..])
    else [s[0]] + RemoveEmptyParagraphs(s[1..])
  }

  /** Content in which the pattern matches at no position is unchanged. */
  lemma {:induction false} RemoveEmptyParagraphsAbsent(s: string)
    requires forall i | 0 <= i <= |s| :: EmptyParagraphAt(s[i..]) == 0
    ensures RemoveEmptyParagraphs(s) == s
    decreases |s|
  {
    if s != [] {
      assert s[0..] == s;
      forall i | 0 <= i <= |s[1..]| ensures EmptyParagraphAt(s[1..][i..]) == 0 {
        assert s[1..][i..] == s[i + 1..];
      }
      RemoveEmptyParagraphsAbsent(s[1..]);
    }
  }

  /**
   * clean_content: the Blogger footer and comment-from divs are removed,
   * tags are balanced, then empty paragraphs are dropped.
   */
  function CleanContent(env: Env, s: string): string {
    var s1 := RemoveDelimited(s, FooterOpen);
    var s2 := RemoveDelimited(s1, CommentFromOpen);
    RemoveEmptyParagraphs(env.balanceTags(s2))
  }

  const EncodingPrefix := "<?xml encoding=\"utf-8\"?>"

  /** The blocks convert_to_blocks hands to serialize_blocks (both bio_* filters have no callbacks here). */
  function ConvertedBlocks(env: Env, content: string): seq<Block> {
    var cleaned := CleanContent(env, Utils.FixEncoding(content));
    var doc := env.loadHtml(EncodingPrefix + cleaned);
    match doc.body
    case Some(body) => NodeBlocks(env, body, [doc.htmlAttrs])
    case None => [ParagraphBlock(env, cleaned, "")]
  }

  /** convert_to_blocks (and bio_convert_to_blocks, its wrapper): the serialized blocks of the content. */
  method ConvertToBlocks(env: Env, content: string) returns (r: string)
    ensures r == env.serialize(ConvertedBlocks(env, content))
  {
    var fixed := Utils.FixEncoding(content);
    var cleaned := CleanContent(env, fixed);
    var doc := env.loadHtml(EncodingPrefix + cleaned);
    var blocks: seq<Block>;
    if doc.body.Some? {
      blocks := ProcessNode(env, doc.body.value, [doc.htmlAttrs]);
    } else {
      blocks := [ParagraphBlock(env, cleaned, "")];
    }
    r := env.serialize(blocks);
  }
}
