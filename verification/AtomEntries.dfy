/**
 * Feed posts as Atom entries, built with default options and parsed again
 * (src/core/xmpp-atom.ts:39-108 and 145-268, src/core/xmpp-records.ts:490-510; section 4.1.2 of RFC 4287).
 * The clock and the percent-encoding of a URI part are inputs.
 */
module AtomEntries {
  import opened Wrappers
  import opened Text
  import opened Jids
  import opened XepHelpers

  const ATOM_XMLNS := "http://www.w3.org/2005/Atom"

  datatype Link = Link(
    rel: Option<string>, href: Option<string>, kind: Option<string>, title: Option<string>, ref: Option<string>)

  /** The fields an entry carries. A missing date is empty. */
  datatype Post = Post(
    id: string, topic: string, from: string, body: string, publishedAt: string, updatedAt: string,
    atomId: Option<string>, title: Option<string>, summary: Option<string>, author: Option<string>,
    categories: Option<seq<string>>, links: Option<seq<Link>>)

  /** What the surroundings supply. */
  datatype Setting = Setting(now: string, encode: string -> string)

  function TrimText(s: Option<string>): string {
    Trim(s.GetOr(""))
  }

  // ---------------------------------------------------------------- derived defaults

  /** The first line that is not blank, of lines that end in a newline or a return and a newline. */
  function FirstLine(text: string): Option<string>
    decreases |text|
  {
    var end := IndexOf(text, '\n');
    var line := if end < |text| && end > 0 && text[end - 1] == '\r' then text[..end - 1] else text[..end];
    if !Blank(line) then Some(line)
    else if end == |text| then None
    else FirstLine(text[end + 1..])
  }

  function Shortened(text: string, limit: nat): string
    requires limit >= 3
  {
    if |text| > limit then text[..limit - 3] + "..." else text
  }

  function DeriveTitle(body: string): string {
    var text := CollapseWhitespace(body);
    if text == "" then "Feed update" else Shortened(FirstLine(text).GetOr(text), 80)
  }

  function DeriveSummary(body: string): string {
    Shortened(CollapseWhitespace(body), 280)
  }

  function UpTo(s: string, n: nat): string {
    if |s| > n then s[..n] else s
  }

  /** The part of the address between `@` and the next `@`, up to a slash. */
  function Authority(jid: string): string {
    var at := IndexOf(jid, '@');
    Or(Before(if at < |jid| then Before(jid[at + 1..], '@') else jid, '/'), "p2p")
  }

  function BuildTagUri(from: string, publishedAt: string, id: string, now: string): string {
    "tag:" + Authority(from) + "," + Or(UpTo(publishedAt, 10), UpTo(now, 10)) + ":posts-" + id
  }

  function BuildXmppUri(from: string, topic: string, id: string, encode: string -> string): string {
    "xmpp:" + from + "?;node=" + encode(topic) + ";item=" + encode(id)
  }

  // ---------------------------------------------------------------- building

  function Title(p: Post): string {
    Or(TrimText(p.title), DeriveTitle(p.body))
  }

  function Summary(p: Post): string {
    Or(TrimText(p.summary), DeriveSummary(p.body))
  }

  function AuthorName(p: Post): string {
    Or(TrimText(p.author), p.from)
  }

  function AtomId(p: Post, now: string): string {
    Or(TrimText(p.atomId), BuildTagUri(p.from, p.publishedAt, p.id, now))
  }

  function IfText(name: string, text: string): seq<Element> {
    if text == "" then [] else [Leaf(name, map[], text)]
  }

  function AuthorElement(p: Post): Element {
    Element("author", map[], "", IfText("name", AuthorName(p)) + [Leaf("uri", map[], "xmpp:" + p.from)])
  }

  function CategoryElements(categories: seq<string>): seq<Element> {
    if categories == [] then []
    else
      (if categories[0] == "" then [] else [Leaf("category", map["term" := categories[0]], "")])
      + CategoryElements(categories[1..])
  }

  predicate HasAlternate(links: seq<Link>) {
    exists i | 0 <= i < |links| :: links[i].rel == Some("alternate")
  }

  /** The links of the post, led by an alternate one if there is none. */
  function AllLinks(p: Post, setting: Setting): seq<Link> {
    var links := p.links.GetOr([]);
    if HasAlternate(links) then links
    else
      [Link(Some("alternate"), Some(BuildXmppUri(p.from, p.topic, p.id, setting.encode)), None, None, None)] + links
  }

  function LinkElement(link: Link): Element
    requires NonEmpty(link.href).Some?
  {
    var rel := With(map["href" := link.href.value], "rel", NonEmpty(link.rel));
    var kind := With(rel, "type", NonEmpty(link.kind));
    var title := With(kind, "title", NonEmpty(link.title));
    Leaf("link", With(title, "ref", NonEmpty(link.ref)), "")
  }

  function LinkElements(links: seq<Link>): seq<Element> {
    if links == [] then []
    else (if NonEmpty(links[0].href).Some? then [LinkElement(links[0])] else []) + LinkElements(links[1..])
  }

  function Head(p: Post, setting: Setting): seq<Element> {
    [ Leaf("title", map["type" := "text"], Title(p)),
      Leaf("id", map[], AtomId(p, setting.now)),
      Leaf("published", map[], p.publishedAt),
      Leaf("updated", map[], p.updatedAt),
      AuthorElement(p) ]
  }

  function SummaryElements(p: Post): seq<Element> {
    if Summary(p) == "" then [] else [Leaf("summary", map["type" := "text"], Summary(p))]
  }

  function Content(p: Post): Element {
    Leaf("content", map["type" := "text"], p.body)
  }

  /** `buildMicroblogEntry` with default options. */
  function Entry(p: Post, setting: Setting): Element {
    Element("entry", map["xmlns" := ATOM_XMLNS], "",
            Head(p, setting) + SummaryElements(p) + [Content(p)]
            + CategoryElements(p.categories.GetOr([])) + LinkElements(AllLinks(p, setting)))
  }

  function Item(p: Post, setting: Setting): Element {
    Element("item", map["id" := p.id], "", [Entry(p, setting)])
  }

  // ---------------------------------------------------------------- parsing

  function FirstEntry(children: seq<Element>): Option<Element> {
    if children == [] then None
    else if children[0].name == "entry" && Attr(children[0], "xmlns") == Some(ATOM_XMLNS) then Some(children[0])
    else FirstEntry(children[1..])
  }

  function FirstArticle(children: seq<Element>): Option<Element> {
    if children == [] then None
    else if children[0].name == "article" && Attr(children[0], "xmlns") == Some("urn:nexus:article:1") then Some(children[0])
    else FirstArticle(children[1..])
  }

  function CategoriesOf(children: seq<Element>): seq<string> {
    if children == [] then []
    else
      var term := if NonEmpty(Attr(children[0], "term")).Some? then Attr(children[0], "term") else Attr(children[0], "label");
      (if children[0].name == "category" && !Blank(term.GetOr("")) then [term.GetOr("")] else [])
      + CategoriesOf(children[1..])
  }

  function LinkOf(e: Element): Link {
    Link(Attr(e, "rel"), Attr(e, "href"), Attr(e, "type"), Attr(e, "title"), Attr(e, "ref"))
  }

  /** The links with a relation or an address; those without either are filtered out in the end. */
  function LinksOf(children: seq<Element>): seq<Link> {
    if children == [] then []
    else
      var link := LinkOf(children[0]);
      (if children[0].name == "link" && (NonEmpty(link.rel).Some? || NonEmpty(link.href).Some?) then [link] else [])
      + LinksOf(children[1..])
  }

  function TextOf(e: Option<Element>): string {
    if e.Some? then e.value.text else ""
  }

  function WithoutScheme(uri: string): string {
    if "xmpp:" <= uri then uri[5..] else uri
  }

  function AuthorOf(author: Option<Element>): Option<string> {
    if author.None? then None
    else
      var name, uri := TextOf(FirstNamed(author.value.children, "name")), TextOf(FirstNamed(author.value.children, "uri"));
      NonEmpty(Some(Or(Trim(name), Or(Trim(WithoutScheme(uri)), Trim(author.value.text)))))
  }

  /**
   * `parseMicroblogEntry`, of an item with an entry or without one. The text of a content
   * element that is not plain is an input.
   */
  function ParsedEntry(
      topic: string, id: string, from: string, itemBody: string, entry: Option<Element>, xhtmlText: Element -> string,
      now: string)
      : Option<Post>
  {
    var children := if entry.Some? then entry.value.children else [];
    var content := FirstNamed(children, "content");
    var contentText :=
      if content.Some? && Attr(content.value, "type") == Some("xhtml") then xhtmlText(content.value) else TextOf(content);
    var title, summary := TextOf(FirstNamed(children, "title")), TextOf(FirstNamed(children, "summary"));
    var published, updated := TextOf(FirstNamed(children, "published")), TextOf(FirstNamed(children, "updated"));
    var body :=
      Or(TextOf(FirstArticle(children)), Trim(Or(contentText, Or(itemBody, Or(summary, title)))));
    if id == "" || (body == "" && title == "") then None
    else
      Some(Post(
             id, topic, from, Or(body, Or(Trim(title), "Feed update")),
             Or(published, Or(updated, now)), Or(updated, Or(published, now)),
             NonEmpty(Some(Trim(TextOf(FirstNamed(children, "id"))))),
             NonEmpty(Some(Trim(title))), NonEmpty(Some(Trim(summary))),
             AuthorOf(FirstNamed(children, "author")),
             if entry.Some? then Some(CategoriesOf(children)) else None,
             if entry.Some? then Some(LinksOf(children)) else None))
  }

  function Parsed(topic: string, item: Element, from: string, xhtmlText: Element -> string, now: string): Option<Post> {
    ParsedEntry(
      topic, Attr(item, "id").GetOr(""), from, TextOf(FirstNamed(item.children, "body")), FirstEntry(item.children),
      xhtmlText, now)
  }

  /** Building and then parsing. */
  function Trip(p: Post, setting: Setting, xhtmlText: Element -> string): Option<Post> {
    Parsed(p.topic, Item(p, setting), p.from, xhtmlText, setting.now)
  }

  // ---------------------------------------------------------------- what a trip gives

  function KeptCategories(categories: seq<string>): seq<string> {
    if categories == [] then [] else (if Blank(categories[0]) then [] else [categories[0]]) + KeptCategories(categories[1..])
  }

  function Cleaned(link: Link): Link {
    Link(NonEmpty(link.rel), link.href, NonEmpty(link.kind), NonEmpty(link.title), NonEmpty(link.ref))
  }

  function KeptLinks(links: seq<Link>): seq<Link> {
    if links == [] then []
    else (if NonEmpty(links[0].href).Some? then [Cleaned(links[0])] else []) + KeptLinks(links[1..])
  }

  /** Trimmed, with defaults for what is missing, without blank categories and links without an address. */
  function Settled(p: Post, setting: Setting): Post {
    var title, summary := Title(p), Summary(p);
    var body := Trim(Or(p.body, Or(summary, title)));
    Post(
      p.id, p.topic, p.from, Or(body, title),
      Or(p.publishedAt, Or(p.updatedAt, setting.now)), Or(p.updatedAt, Or(p.publishedAt, setting.now)),
      Some(Trim(AtomId(p, setting.now))), Some(title), NonEmpty(Some(summary)),
      NonEmpty(Some(Or(TrimText(p.author), Trim(p.from)))),
      Some(KeptCategories(p.categories.GetOr([]))), Some(KeptLinks(AllLinks(p, setting))))
  }
}
