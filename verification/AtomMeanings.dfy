/**
 * What entries say and how they are understood, whoever built them (src/core/xmpp-atom.ts:60-108,
 * 215-268): cut texts, unique identifiers, and the fallbacks of the parser.
 */
module AtomMeanings {
  import opened Wrappers
  import opened Text
  import opened Jids
  import opened XepHelpers
  import opened AtomEntries
  import opened AtomRoundTrip

  // ---------------------------------------------------------------- texts

  /** The text itself if it has at most `limit` characters, else its start and three dots, `limit` in all. */
  ghost predicate IsCut(cut: string, text: string, limit: nat)
    requires limit >= 3
  {
    if |text| <= limit then cut == text else |cut| == limit && cut[..limit - 3] <= text && cut[limit - 3..] == "..."
  }

  /** A title is given, trimmed, or made of the words of the body, at most 80 characters of them. */
  lemma TitleIs(p: Post)
    ensures var given := p.title.GetOr("");
      if !Blank(given) then Title(p) == Trim(given)
      else if Blank(p.body) then Title(p) == "Feed update"
      else exists text :: Words(text) == Words(p.body) && IsTrimmed(text) && SingleBlanks(text) && IsCut(Title(p), text, 80)
  {
    var text := CollapseWhitespace(p.body);
    DerivedTitleMeans(p.body);
    CollapsedMeans(p.body);
    CollapsedKeepsWords(p.body);
    assert IsCut(Shortened(text, 80), text, 80);
  }

  /** So is a summary, of at most 280. */
  lemma SummaryIs(p: Post)
    ensures var given := p.summary.GetOr("");
      if !Blank(given) then Summary(p) == Trim(given)
      else exists text :: Words(text) == Words(p.body) && IsTrimmed(text) && SingleBlanks(text) && IsCut(Summary(p), text, 280)
  {
    var text := CollapseWhitespace(p.body);
    CollapsedMeans(p.body);
    CollapsedKeepsWords(p.body);
    assert IsCut(Shortened(text, 280), text, 280);
  }

  // ---------------------------------------------------------------- identifiers

  /** The host of an address; of one without an at sign, what stands before the slash. */
  lemma AuthorityIs(user: string, host: string, resource: string)
    requires '@' !in user && '@' !in host && '/' !in host && '@' !in resource
    ensures var authority := if host == "" then "p2p" else host;
      && Authority(user + "@" + host) == authority && Authority(user + "@" + host + "/" + resource) == authority
      && Authority(host) == authority && Authority(host + "/" + resource) == authority
  {
    AuthorityAfter(user, host, user + "@" + host);
    AuthorityAfter(user, host, user + "@" + host + "/" + resource);
    FirstIsAt(host, '@', |host|);
    FirstIsAt(host + "/" + resource, '@', |host + "/" + resource|);
    BeforeIff(host, host, '/');
    BeforeIff(host + "/" + resource, host, '/');
  }

  lemma AuthorityAfter(user: string, host: string, full: string)
    requires '@' !in user && '@' !in host && '/' !in host
    requires user + "@" + host <= full && '@' !in full[|user| + 1..]
    requires full == user + "@" + host || full[|user| + 1 + |host|] == '/'
    ensures Authority(full) == if host == "" then "p2p" else host
  {
    var rest := full[|user| + 1..];
    assert full[..|user|] == user && full[|user|] == '@';
    FirstIsAt(full, '@', |user|);
    FirstIsAt(rest, '@', |rest|);
    assert rest[..|rest|] == rest && Before(rest, '@') == rest;
    assert rest[..|host|] == host;
    FirstIsAt(rest, '/', |host|);
  }

  /** A tag names the authority, the day of publication, and the post. */
  lemma TagUriIs(from: string, publishedAt: string, id: string, now: string)
    requires |publishedAt| >= 10
    ensures BuildTagUri(from, publishedAt, id, now) == "tag:" + Authority(from) + "," + publishedAt[..10] + ":posts-" + id
    ensures |now| >= 10 ==>
              BuildTagUri(from, "", id, now) == "tag:" + Authority(from) + "," + now[..10] + ":posts-" + id
  {
  }

  /** An entry has the identifier given, trimmed, or the tag of the post. */
  lemma AtomIdIs(p: Post, now: string)
    ensures var given := p.atomId.GetOr("");
      && (!Blank(given) ==> AtomId(p, now) == Trim(given))
      && (Blank(given) && |p.publishedAt| >= 10 ==>
            AtomId(p, now) == "tag:" + Authority(p.from) + "," + p.publishedAt[..10] + ":posts-" + p.id)
  {
  }

  /** Tags tell the posts of one day and one authority apart. */
  lemma TagUriInjective(from: string, other: string, publishedAt: string, laterThatDay: string, id: string, id': string, now: string)
    requires Authority(from) == Authority(other)
    requires |publishedAt| >= 10 && |laterThatDay| >= 10 && publishedAt[..10] == laterThatDay[..10]
    ensures BuildTagUri(from, publishedAt, id, now) == BuildTagUri(other, laterThatDay, id', now) <==> id == id'
  {
    var start := "tag:" + Authority(from) + "," + publishedAt[..10] + ":posts-";
    assert BuildTagUri(from, publishedAt, id, now)[|start|..] == id;
    assert BuildTagUri(other, laterThatDay, id', now)[|start|..] == id';
  }

  /** An encoding whose results can be told apart in a list. */
  ghost predicate Encodes(encode: string -> string) {
    && (forall s :: ';' !in encode(s))
    && (forall s, t :: encode(s) == encode(t) ==> s == t)
  }

  /** The uris of a sender tell its topics and posts apart. */
  lemma XmppUriInjective(from: string, topic: string, id: string, topic': string, id': string, encode: string -> string)
    requires Encodes(encode)
    ensures BuildXmppUri(from, topic, id, encode) == BuildXmppUri(from, topic', id', encode) <==> topic == topic' && id == id'
  {
    var start := "xmpp:" + from + "?;node=";
    var a, b := BuildXmppUri(from, topic, id, encode), BuildXmppUri(from, topic', id', encode);
    var x, y := encode(topic) + ";item=" + encode(id), encode(topic') + ";item=" + encode(id');
    assert a == start + x && b == start + y;
    assert a[|start|..] == x && b[|start|..] == y;
    if a == b {
      FirstIsAt(x, ';', |encode(topic)|);
      FirstIsAt(y, ';', |encode(topic')|);
      assert x[..|encode(topic)|] == encode(topic) && y[..|encode(topic)|] == encode(topic');
      assert x[|encode(topic)| + 6..] == encode(id) && y[|encode(topic)| + 6..] == encode(id');
    }
  }

  // ---------------------------------------------------------------- parsing any entry

  /** `r` is the first of the texts that is not empty, and empty if all are. */
  ghost predicate IsFirstText(r: string, texts: seq<string>) {
    if exists i :: 0 <= i < |texts| && texts[i] != "" then
      exists i | 0 <= i < |texts| :: texts[i] == r != "" && forall j | 0 <= j < i :: texts[j] == ""
    else r == ""
  }

  lemma FirstOfThree(a: string, b: string, c: string)
    ensures IsFirstText(Or(a, Or(b, c)), [a, b, c])
  {
    assert [a, b, c][0] == a && [a, b, c][1] == b && [a, b, c][2] == c;
  }

  lemma FirstOfFour(a: string, b: string, c: string, d: string)
    ensures IsFirstText(Or(a, Or(b, Or(c, d))), [a, b, c, d])
  {
    assert [a, b, c, d][0] == a && [a, b, c, d][1] == b && [a, b, c, d][2] == c && [a, b, c, d][3] == d;
  }

  /** The text of the first child with this name; empty without one. */
  ghost predicate IsTextOf(text: string, children: seq<Element>, name: string) {
    if exists c | c in children :: c.name == name then exists c :: IsFirst(children, name, c) && c.text == text
    else text == ""
  }

  lemma TextIs(children: seq<Element>, name: string)
    ensures IsTextOf(TextOf(FirstNamed(children, name)), children, name)
  {
    var found := FirstNamed(children, name);
    if found.Some? {
      FirstNamedIff(children, name, found.value);
    } else if c :| c in children && c.name == name {
      FirstNamedIff(children, name, c);
    }
  }

  function ChildrenOf(entry: Option<Element>): seq<Element> {
    if entry.Some? then entry.value.children else []
  }

  /** The text of the content: what is read from markup, and else the text as it stands. */
  function ContentText(children: seq<Element>, xhtmlText: Element -> string): string {
    if IsXhtml(children) then xhtmlText(FirstNamed(children, "content").value) else TextOf(FirstNamed(children, "content"))
  }

  /**
   * How any item is understood: the body is that of an article, or else the content, the
   * body of the item, the summary or the title, whichever says something first, or else a
   * default. An item without an id, or with nothing to say, is no post.
   */
  lemma ParsedIs(topic: string, id: string, from: string, itemBody: string, entry: Option<Element>,
                 xhtmlText: Element -> string, now: string, text: string)
    requires var children := ChildrenOf(entry);
      IsFirstText(text, [ContentText(children, xhtmlText), itemBody, TextOf(FirstNamed(children, "summary")),
                         TextOf(FirstNamed(children, "title"))])
    ensures var children := ChildrenOf(entry);
      var article, title := TextOf(FirstArticle(children)), TextOf(FirstNamed(children, "title"));
      var post := ParsedEntry(topic, id, from, itemBody, entry, xhtmlText, now);
      && (post.None? <==> id == "" || (article == "" && Blank(text) && title == ""))
      && (post.Some? ==>
            && post.value.id == id && post.value.topic == topic && post.value.from == from
            && post.value.body == (if article != "" then article else if !Blank(text) then Trim(text)
                                   else if !Blank(title) then Trim(title) else "Feed update"))
  {
    var children := ChildrenOf(entry);
    var content := ContentText(children, xhtmlText);
    var summary, title := TextOf(FirstNamed(children, "summary")), TextOf(FirstNamed(children, "title"));
    FirstOfFour(content, itemBody, summary, title);
    FirstTextUnique([content, itemBody, summary, title], text, Or(content, Or(itemBody, Or(summary, title))));
  }

  /** An item is understood by its id, which it must have, its body and its entry. */
  lemma ParsedItemIs(topic: string, item: Element, from: string, xhtmlText: Element -> string, now: string)
    ensures ("id" in item.attrs ==>
               AtomEntries.Parsed(topic, item, from, xhtmlText, now) ==
               ParsedEntry(topic, item.attrs["id"], from, TextOf(FirstNamed(item.children, "body")),
                           FirstEntry(item.children), xhtmlText, now))
    ensures "id" !in item.attrs ==> AtomEntries.Parsed(topic, item, from, xhtmlText, now) == None
  {
  }

  /** Dates stand in for each other, and the clock for both; other texts are trimmed; an item without an entry has no lists. */
  lemma ParsedFieldsAre(topic: string, id: string, from: string, itemBody: string, entry: Option<Element>,
                        xhtmlText: Element -> string, now: string, published: string, updated: string)
    requires var children := ChildrenOf(entry);
      && IsFirstText(published, [TextOf(FirstNamed(children, "published")), TextOf(FirstNamed(children, "updated")), now])
      && IsFirstText(updated, [TextOf(FirstNamed(children, "updated")), TextOf(FirstNamed(children, "published")), now])
    ensures var children := ChildrenOf(entry);
      var post := ParsedEntry(topic, id, from, itemBody, entry, xhtmlText, now);
      post.Some? ==>
        && post.value.publishedAt == published && post.value.updatedAt == updated
        && IsTrimmedText(post.value.title, TextOf(FirstNamed(children, "title")))
        && IsTrimmedText(post.value.summary, TextOf(FirstNamed(children, "summary")))
        && IsTrimmedText(post.value.atomId, TextOf(FirstNamed(children, "id")))
        && (post.value.categories.None? <==> entry.None?) && (post.value.links.None? <==> entry.None?)
  {
    var children := ChildrenOf(entry);
    var first, last := TextOf(FirstNamed(children, "published")), TextOf(FirstNamed(children, "updated"));
    FirstOfThree(first, last, now);
    FirstTextUnique([first, last, now], published, Or(first, Or(last, now)));
    FirstOfThree(last, first, now);
    FirstTextUnique([last, first, now], updated, Or(last, Or(first, now)));
  }

  lemma FirstTextUnique(texts: seq<string>, a: string, b: string)
    requires IsFirstText(a, texts) && IsFirstText(b, texts)
    ensures a == b
  {
    if exists i :: 0 <= i < |texts| && texts[i] != "" {
      var i :| 0 <= i < |texts| && texts[i] == a != "" && forall k | 0 <= k < i :: texts[k] == "";
      var j :| 0 <= j < |texts| && texts[j] == b != "" && forall k | 0 <= k < j :: texts[k] == "";
      assert i == j;
    }
  }

  /** The text trimmed, and none if it is blank. */
  predicate IsTrimmedText(found: Option<string>, text: string) {
    found == if Blank(text) then None else Some(Trim(text))
  }

  /** The content is marked as markup. */
  predicate IsXhtml(children: seq<Element>) {
    var content := FirstNamed(children, "content");
    content.Some? && "type" in content.value.attrs && content.value.attrs["type"] == "xhtml"
  }

  /** The author is the name, or else the address without its scheme, or else the bare text; none if all are blank. */
  lemma AuthorIs(author: Element)
    ensures var name, uri := TextOf(FirstNamed(author.children, "name")), TextOf(FirstNamed(author.children, "uri"));
      AuthorOf(Some(author)) ==
        if !Blank(name) then Some(Trim(name))
        else if !Blank(WithoutScheme(uri)) then Some(Trim(WithoutScheme(uri)))
        else if !Blank(author.text) then Some(Trim(author.text))
        else None
    ensures AuthorOf(None) == None
  {
  }

  lemma SchemeIs(uri: string)
    ensures WithoutScheme("xmpp:" + uri) == uri
    ensures !("xmpp:" <= uri) ==> WithoutScheme(uri) == uri
  {
  }

  /** The first entry in the namespace of Atom, and the first article in its own. */
  lemma {:induction false} FirstEntryIs(before: seq<Element>, entry: Element, after: seq<Element>)
    requires IsEntry(entry) && forall c | c in before :: !IsEntry(c)
    ensures FirstEntry(before + [entry] + after) == Some(entry)
  {
    var all := before + [entry] + after;
    if before == [] {
      assert all[0] == entry;
    } else {
      assert all[0] == before[0] && all[1..] == before[1..] + [entry] + after;
      assert before[0] in before;
      FirstEntryIs(before[1..], entry, after);
    }
  }

  lemma {:induction false} NoEntry(children: seq<Element>)
    requires forall c | c in children :: !IsEntry(c)
    ensures FirstEntry(children) == None
  {
    if children == [] {
    } else {
      assert children[0] in children;
      NoEntry(children[1..]);
    }
  }

  predicate IsEntry(e: Element) {
    e.name == "entry" && "xmlns" in e.attrs && e.attrs["xmlns"] == "http://www.w3.org/2005/Atom"
  }

  predicate IsArticle(e: Element) {
    e.name == "article" && "xmlns" in e.attrs && e.attrs["xmlns"] == "urn:nexus:article:1"
  }

  lemma {:induction false} FirstArticleIs(before: seq<Element>, article: Element, after: seq<Element>)
    requires IsArticle(article) && forall c | c in before :: !IsArticle(c)
    ensures FirstArticle(before + [article] + after) == Some(article)
  {
    var all := before + [article] + after;
    if before == [] {
      assert all[0] == article;
    } else {
      assert all[0] == before[0] && all[1..] == before[1..] + [article] + after;
      assert before[0] in before;
      FirstArticleIs(before[1..], article, after);
    }
  }

  lemma {:induction false} NoArticleFound(children: seq<Element>)
    requires forall c | c in children :: !IsArticle(c)
    ensures FirstArticle(children) == None
  {
    if children == [] {
    } else {
      assert children[0] in children;
      NoArticleFound(children[1..]);
    }
  }

  /** A category is its term, or else its label, if that is not blank. */
  lemma CategoryIs(e: Element, rest: seq<Element>)
    ensures var term := if "term" in e.attrs then e.attrs["term"] else "";
      var named := if "label" in e.attrs then e.attrs["label"] else "";
      var said := if term != "" then term else named;
      CategoriesOf([e] + rest) == (if e.name == "category" && !Blank(said) then [said] else []) + CategoriesOf(rest)
    ensures CategoriesOf([]) == []
  {
    assert ([e] + rest)[1..] == rest;
    assert Blank("");
  }

  /** A link keeps its five attributes, if it has a relation or an address that is not empty. */
  lemma LinkIs(e: Element, rest: seq<Element>)
    ensures var kept := e.name == "link" && (("rel" in e.attrs && e.attrs["rel"] != "") || ("href" in e.attrs && e.attrs["href"] != ""));
      && |LinksOf([e] + rest)| == (if kept then 1 else 0) + |LinksOf(rest)|
      && LinksOf([e] + rest)[if kept then 1 else 0..] == LinksOf(rest)
      && (kept ==>
            var link := LinksOf([e] + rest)[0];
            && Says(e, "rel", link.rel) && Says(e, "href", link.href) && Says(e, "type", link.kind)
            && Says(e, "title", link.title) && Says(e, "ref", link.ref))
    ensures LinksOf([]) == []
  {
    assert ([e] + rest)[1..] == rest;
  }

  /** The attribute has this value, or is missing. */
  predicate Says(e: Element, name: string, value: Option<string>) {
    if name in e.attrs then value == Some(e.attrs[name]) else value == None
  }

  // ---------------------------------------------------------------- what is built

  /** The first line of a text that is not blank; a line ends in a newline, with or without a return before it. */
  lemma FirstLineIs(line: string, rest: string)
    requires '\n' !in line
    ensures FirstLine(line) == if Blank(line) then None else Some(line)
    ensures var bare := if line != "" && line[|line| - 1] == '\r' then line[..|line| - 1] else line;
      FirstLine(line + "\n" + rest) == if Blank(bare) then FirstLine(rest) else Some(bare)
  {
    var text := line + "\n" + rest;
    FirstIsAt(line, '\n', |line|);
    assert text[..|line|] == line && text[|line| + 1..] == rest;
    FirstIsAt(text, '\n', |line|);
    assert line[..|line|] == line;
    if line != "" {
      assert text[..|line| - 1] == line[..|line| - 1];
    }
  }

  /** An entry links to all that the post links to, and to the post itself if none of those is marked as alternate. */
  lemma AllLinksAre(p: Post, setting: Setting)
    ensures var links, all := p.links.GetOr([]), AllLinks(p, setting);
      if exists l | l in links :: l.rel == Some("alternate") then all == links
      else
        && |all| == 1 + |links| && all[1..] == links && all[0].rel == Some("alternate")
        && all[0].href == Some("xmpp:" + p.from + "?;node=" + setting.encode(p.topic) + ";item=" + setting.encode(p.id))
        && all[0].kind == None && all[0].title == None && all[0].ref == None
  {
    HasAlternateIff(p.links.GetOr([]));
  }

  lemma HasAlternateIff(links: seq<Link>)
    ensures HasAlternate(links) <==> exists l | l in links :: l.rel == Some("alternate")
  {
    if HasAlternate(links) {
      var i :| 0 <= i < |links| && links[i].rel == Some("alternate");
      assert links[i] in links;
    }
    if exists l | l in links :: l.rel == Some("alternate") {
      var l :| l in links && l.rel == Some("alternate");
      var i :| 0 <= i < |links| && links[i] == l;
      assert links[i].rel == Some("alternate");
    }
  }

  /** A category is built for each that is not empty, and nothing else. */
  lemma {:induction false} CategoriesBuilt(categories: seq<string>)
    ensures forall e :: e in CategoryElements(categories) <==>
              exists c | c in categories :: c != "" && e == Element("category", map["term" := c], "", [])
    ensures |CategoryElements(categories)| <= |categories|
  {
    if categories == [] {
    } else {
      var first, rest := categories[0], categories[1..];
      CategoriesBuilt(rest);
      assert categories == [first] + rest;
      var built := if first == "" then [] else [Leaf("category", map["term" := first], "")];
      assert CategoryElements(categories) == built + CategoryElements(rest);
      forall e
        ensures e in CategoryElements(categories) <==> e in built || e in CategoryElements(rest)
      {
      }
    }
  }

  /** A link element has the address and the attributes of the link that are not empty, and nothing else. */
  lemma LinkBuilt(link: Link)
    requires link.href.Some? && link.href.value != ""
    ensures var e := LinkElement(link);
      && e.name == "link" && e.text == "" && e.children == []
      && Says(e, "href", link.href) && Says(e, "rel", NonEmpty(link.rel)) && Says(e, "type", NonEmpty(link.kind))
      && Says(e, "title", NonEmpty(link.title)) && Says(e, "ref", NonEmpty(link.ref))
  {
  }

  /** An item has the id of the post and its entry, in the namespace of Atom, and no text of its own. */
  lemma ItemBuilt(p: Post, setting: Setting)
    ensures Item(p, setting) == Element("item", map["id" := p.id], "", [Entry(p, setting)])
    ensures var entry := Entry(p, setting);
      entry == Element("entry", map["xmlns" := "http://www.w3.org/2005/Atom"], "", entry.children)
  {
  }

  /** The texts of an entry are marked as plain; its author has a uri, and a name if there is one. */
  lemma EntryBuilt(p: Post, setting: Setting)
    ensures var head := Head(p, setting);
      && Says(head[0], "type", Some("text")) && Says(Content(p), "type", Some("text"))
      && (Summary(p) != "" ==> |SummaryElements(p)| == 1 && Says(SummaryElements(p)[0], "type", Some("text")))
      && (Summary(p) == "" ==> SummaryElements(p) == [])
      && head[4].children == (if AuthorName(p) == "" then [] else [Element("name", map[], AuthorName(p), [])])
                             + [Element("uri", map[], "xmpp:" + p.from, [])]
  {
  }
}
