/** Building an entry and parsing it again puts a post in a normal form. */
module AtomRoundTrip {
  import opened Wrappers
  import opened Text
  import opened Jids
  import opened XepHelpers
  import opened AtomEntries

  // ---------------------------------------------------------------- derived texts

  lemma {:induction false} IndexOfAbsent(s: string, c: char)
    requires c !in s
    ensures IndexOf(s, c) == |s|
  {
    if s == "" {
    } else {
      assert s[0] in s;
      assert forall x | x in s[1..] :: x in s;
      IndexOfAbsent(s[1..], c);
    }
  }

  lemma ShortenedStaysTrimmed(text: string, limit: nat)
    requires IsTrimmed(text) && text != "" && limit > 3
    ensures IsTrimmed(Shortened(text, limit)) && Shortened(text, limit) != ""
    ensures |Shortened(text, limit)| <= limit
  {
  }

  /** A derived title is the collapsed body, cut at 80 characters; it is never blank. */
  lemma DerivedTitleMeans(body: string)
    ensures DeriveTitle(body) == if Blank(body) then "Feed update" else Shortened(CollapseWhitespace(body), 80)
    ensures DeriveTitle(body) != "" && IsTrimmed(DeriveTitle(body))
  {
    var text := CollapseWhitespace(body);
    CollapsedMeans(body);
    if text != "" {
      IndexOfAbsent(text, '\n');
      assert text[..|text|] == text;
      TrimTrims(text);
      assert FirstLine(text) == Some(text);
      ShortenedStaysTrimmed(text, 80);
    } else {
      assert "Feed update"[0] == 'F' && "Feed update"[|"Feed update"| - 1] == 'e';
    }
  }

  lemma TitleMeans(p: Post)
    ensures Title(p) != "" && IsTrimmed(Title(p))
    ensures Title(p) == p.title.GetOr("") <==> p.title.GetOr("") != "" && IsTrimmed(p.title.GetOr(""))
  {
    TrimTrims(p.title.GetOr(""));
    DerivedTitleMeans(p.body);
    if Blank(p.title.GetOr("")) {
      assert Trim(Title(p)) == Title(p) by {
        TrimTrims(Title(p));
      }
    }
  }

  /** A summary is trimmed, and there is none only for a blank body without a summary. */
  lemma SummaryMeans(p: Post)
    ensures IsTrimmed(Summary(p))
    ensures Summary(p) == "" <==> Blank(p.body) && Blank(p.summary.GetOr(""))
  {
    TrimTrims(p.summary.GetOr(""));
    CollapsedMeans(p.body);
    var text := CollapseWhitespace(p.body);
    if text != "" {
      ShortenedStaysTrimmed(text, 280);
    }
  }

  lemma AtomIdMeans(p: Post, now: string)
    ensures !Blank(AtomId(p, now))
  {
    TrimTrims(p.atomId.GetOr(""));
    if Blank(p.atomId.GetOr("")) {
      var id := AtomId(p, now);
      assert id[0] == 't';
      BlankIff(id);
    } else {
      TrimTrims(AtomId(p, now));
    }
  }

  // ---------------------------------------------------------------- finding what was built

  lemma {:induction false} FirstAt(children: seq<Element>, i: nat, name: string)
    requires i < |children| && children[i].name == name
    requires forall j | 0 <= j < i :: children[j].name != name
    ensures FirstNamed(children, name) == Some(children[i])
  {
    if i == 0 {
    } else {
      FirstAt(children[1..], i - 1, name);
    }
  }

  lemma {:induction false} CategoryNames(categories: seq<string>)
    ensures forall c | c in CategoryElements(categories) :: c.name == "category"
  {
    if categories == [] {
    } else {
      CategoryNames(categories[1..]);
    }
  }

  lemma {:induction false} LinkNames(links: seq<Link>)
    ensures forall c | c in LinkElements(links) :: c.name == "link"
  {
    if links == [] {
    } else {
      LinkNames(links[1..]);
    }
  }

  /** The entry but for its categories and links. */
  function Front(p: Post, setting: Setting): seq<Element> {
    Head(p, setting) + SummaryElements(p) + [Content(p)]
  }

  function Back(p: Post, setting: Setting): seq<Element> {
    CategoryElements(p.categories.GetOr([])) + LinkElements(AllLinks(p, setting))
  }

  lemma BackNames(p: Post, setting: Setting)
    ensures forall c | c in Back(p, setting) :: c.name == "category" || c.name == "link"
  {
    CategoryNames(p.categories.GetOr([]));
    LinkNames(AllLinks(p, setting));
  }

  const FRONT_NAMES: seq<string> := ["title", "id", "published", "updated", "author"]

  lemma NamesApart()
    ensures forall i, j | 0 <= i < j < 5 :: FRONT_NAMES[i] != FRONT_NAMES[j]
    ensures forall i | 0 <= i < 5 ::
              FRONT_NAMES[i] != "summary" && FRONT_NAMES[i] != "content" && FRONT_NAMES[i] != "category"
              && FRONT_NAMES[i] != "link" && FRONT_NAMES[i] != "article"
    ensures "summary" != "content" && "summary" != "category" && "summary" != "link" && "summary" != "article"
    ensures "content" != "category" && "content" != "link" && "content" != "article" && "category" != "link"
    ensures "category" != "article" && "link" != "article"
  {
    assert "title"[0] == 't' && "published"[0] == 'p' && "updated"[0] == 'u' && "author"[0] == 'a' && "id"[0] == 'i';
    assert "summary"[0] == 's' && "content"[0] == 'c' && "category"[1] == 'a' && "content"[1] == 'o';
    assert "link"[0] == 'l' && "article"[1] == 'r' && "author"[1] == 'u';
  }

  lemma HeadNames(p: Post, setting: Setting, i: nat)
    requires i < 5
    ensures |Head(p, setting)| == 5 && Head(p, setting)[i].name == FRONT_NAMES[i]
  {
  }

  lemma HeadFound(p: Post, setting: Setting, i: nat)
    requires i < 5
    ensures FirstNamed(Entry(p, setting).children, FRONT_NAMES[i]) == Some(Head(p, setting)[i])
  {
    var children := Entry(p, setting).children;
    NamesApart();
    forall j: nat | j < 5
      ensures children[j] == Head(p, setting)[j] && children[j].name == FRONT_NAMES[j]
    {
      HeadNames(p, setting, j);
    }
    FirstAt(children, i, FRONT_NAMES[i]);
  }

  lemma NotInHead(p: Post, setting: Setting, name: string)
    requires name == "summary" || name == "content" || name == "category" || name == "link" || name == "article"
    ensures forall c | c in Head(p, setting) :: c.name != name
  {
    NamesApart();
    forall i: nat | i < 5
      ensures Head(p, setting)[i].name != name
    {
      HeadNames(p, setting, i);
    }
  }

  lemma EntryChildren(p: Post, setting: Setting)
    ensures Entry(p, setting).children == Front(p, setting) + Back(p, setting)
  {
  }

  lemma RestFound(p: Post, setting: Setting)
    ensures FirstNamed(Entry(p, setting).children, "content") == Some(Content(p))
    ensures TextOf(FirstNamed(Entry(p, setting).children, "summary")) == Summary(p)
  {
    NamesApart();
    AfterHead(p, setting, "summary");
    AfterHead(p, setting, "content");
  }

  /** Neither the head nor the back of an entry has its summary or its content. */
  lemma AfterHead(p: Post, setting: Setting, name: string)
    requires name == "summary" || name == "content"
    ensures var found := FirstNamed(SummaryElements(p), name);
      FirstNamed(Entry(p, setting).children, name) == if found.Some? then found else FirstNamed([Content(p)], name)
  {
    var head, back := Head(p, setting), Back(p, setting);
    NotInHead(p, setting, name);
    NoneNamed(head, name);
    NotInBack(p, setting, name);
    EntryChildren(p, setting);
    FirstNamedAppend(Front(p, setting), back, name);
    FirstNamedAppend(head + SummaryElements(p), [Content(p)], name);
    FirstNamedAppend(head, SummaryElements(p), name);
  }

  lemma NotInBack(p: Post, setting: Setting, name: string)
    requires name == "summary" || name == "content"
    ensures FirstNamed(Back(p, setting), name).None?
  {
    NamesApart();
    BackNames(p, setting);
    NoneNamed(Back(p, setting), name);
  }

  lemma {:induction false} NoArticle(children: seq<Element>)
    requires forall c | c in children :: c.name != "article"
    ensures FirstArticle(children).None?
  {
    if children == [] {
    } else {
      NoArticle(children[1..]);
    }
  }

  lemma EntryHasNoArticle(p: Post, setting: Setting)
    ensures FirstArticle(Entry(p, setting).children).None?
  {
    EntryChildren(p, setting);
    NamesApart();
    BackNames(p, setting);
    NotInHead(p, setting, "article");
    assert forall c | c in Front(p, setting) ::
        c in Head(p, setting) || c in SummaryElements(p) || c == Content(p);
    NoArticle(Entry(p, setting).children);
  }

  // ---------------------------------------------------------------- categories and links

  lemma {:induction false} CategoriesAppend(a: seq<Element>, b: seq<Element>)
    ensures CategoriesOf(a + b) == CategoriesOf(a) + CategoriesOf(b)
  {
    if a == [] {
      assert a + b == b;
    } else {
      assert (a + b)[1..] == a[1..] + b;
      CategoriesAppend(a[1..], b);
    }
  }

  lemma {:induction false} NoCategories(children: seq<Element>)
    requires forall c | c in children :: c.name != "category"
    ensures CategoriesOf(children) == []
  {
    if children == [] {
    } else {
      NoCategories(children[1..]);
    }
  }

  lemma {:induction false} CategoriesBack(categories: seq<string>)
    ensures CategoriesOf(CategoryElements(categories)) == KeptCategories(categories)
  {
    if categories == [] {
    } else {
      var c := categories[0];
      var first := if c == "" then [] else [Leaf("category", map["term" := c], "")];
      CategoriesAppend(first, CategoryElements(categories[1..]));
      CategoriesBack(categories[1..]);
      assert Trim("") == "";
      if c != "" {
        assert first[1..] == [];
        assert CategoriesOf(first) == if Blank(c) then [] else [c];
      }
    }
  }

  lemma {:induction false} LinksAppend(a: seq<Element>, b: seq<Element>)
    ensures LinksOf(a + b) == LinksOf(a) + LinksOf(b)
  {
    if a == [] {
      assert a + b == b;
    } else {
      assert (a + b)[1..] == a[1..] + b;
      LinksAppend(a[1..], b);
    }
  }

  lemma {:induction false} NoLinks(children: seq<Element>)
    requires forall c | c in children :: c.name != "link"
    ensures LinksOf(children) == []
  {
    if children == [] {
    } else {
      NoLinks(children[1..]);
    }
  }

  lemma LinkBack(link: Link)
    requires NonEmpty(link.href).Some?
    ensures LinkOf(LinkElement(link)) == Cleaned(link)
  {
  }

  lemma {:induction false} LinksBack(links: seq<Link>)
    ensures LinksOf(LinkElements(links)) == KeptLinks(links)
  {
    if links == [] {
    } else {
      var first := if NonEmpty(links[0].href).Some? then [LinkElement(links[0])] else [];
      LinksAppend(first, LinkElements(links[1..]));
      LinksBack(links[1..]);
      if NonEmpty(links[0].href).Some? {
        LinkBack(links[0]);
        assert first[1..] == [];
      }
    }
  }

  lemma ListsBack(p: Post, setting: Setting)
    ensures CategoriesOf(Entry(p, setting).children) == KeptCategories(p.categories.GetOr([]))
    ensures LinksOf(Entry(p, setting).children) == KeptLinks(AllLinks(p, setting))
  {
    var categories, links := CategoryElements(p.categories.GetOr([])), LinkElements(AllLinks(p, setting));
    var front := Front(p, setting);
    NamesApart();
    NotInHead(p, setting, "category");
    NotInHead(p, setting, "link");
    assert forall c | c in front :: c in Head(p, setting) || c in SummaryElements(p) || c == Content(p);
    CategoryNames(p.categories.GetOr([]));
    LinkNames(AllLinks(p, setting));
    EntryChildren(p, setting);
    NoCategories(front);
    NoCategories(links);
    NoLinks(front);
    NoLinks(categories);
    CategoriesAppend(front, categories + links);
    CategoriesAppend(categories, links);
    LinksAppend(front, categories + links);
    LinksAppend(categories, links);
    CategoriesBack(p.categories.GetOr([]));
    LinksBack(AllLinks(p, setting));
  }

  lemma AuthorBack(p: Post)
    ensures AuthorOf(Some(AuthorElement(p))) == NonEmpty(Some(Or(TrimText(p.author), Trim(p.from))))
  {
    var name, uri := AuthorName(p), Leaf("uri", map[], "xmpp:" + p.from);
    var children := AuthorElement(p).children;
    TrimTrims(p.author.GetOr(""));
    assert Trim("") == "";
    assert WithoutScheme("xmpp:" + p.from) == p.from;
    FirstNamedAppend(IfText("name", name), [uri], "name");
    FirstNamedAppend(IfText("name", name), [uri], "uri");
    assert "name"[0] != "uri"[0];
    if name != "" {
      assert IfText("name", name)[1..] == [];
    }
    assert [uri][1..] == [];
    assert TextOf(FirstNamed(children, "name")) == name;
    assert TextOf(FirstNamed(children, "uri")) == "xmpp:" + p.from;
  }

  // ---------------------------------------------------------------- the trip

  lemma HeadsFound(p: Post, setting: Setting)
    ensures var children := Entry(p, setting).children;
      && TextOf(FirstNamed(children, "title")) == Title(p)
      && TextOf(FirstNamed(children, "id")) == AtomId(p, setting.now)
      && TextOf(FirstNamed(children, "published")) == p.publishedAt
      && TextOf(FirstNamed(children, "updated")) == p.updatedAt
      && FirstNamed(children, "author") == Some(AuthorElement(p))
  {
    HeadFound(p, setting, 0);
    HeadFound(p, setting, 1);
    HeadFound(p, setting, 2);
    HeadFound(p, setting, 3);
    HeadFound(p, setting, 4);
  }

  lemma TextsSettle(p: Post, now: string)
    ensures Trim(Title(p)) == Title(p) && Trim(Summary(p)) == Summary(p) && Title(p) != ""
    ensures Trim(AtomId(p, now)) != ""
  {
    TitleMeans(p);
    SummaryMeans(p);
    AtomIdMeans(p, now);
    TrimTrims(Title(p));
    TrimTrims(Summary(p));
  }

  lemma EntrySettles(p: Post, setting: Setting, xhtmlText: Element -> string)
    requires p.id != ""
    ensures ParsedEntry(p.topic, p.id, p.from, "", Some(Entry(p, setting)), xhtmlText, setting.now) == Some(Settled(p, setting))
  {
    HeadsFound(p, setting);
    RestFound(p, setting);
    EntryHasNoArticle(p, setting);
    ListsBack(p, setting);
    AuthorBack(p);
    TextsSettle(p, setting.now);
  }

  /** Whatever the post, a trip keeps its id and settles the rest. */
  lemma TripSettles(p: Post, setting: Setting, xhtmlText: Element -> string)
    requires p.id != ""
    ensures Trip(p, setting, xhtmlText) == Some(Settled(p, setting))
  {
    var entry := Entry(p, setting);
    assert FirstEntry([entry]) == Some(entry);
    assert FirstNamed([entry], "body").None? by {
      assert "entry"[0] != "body"[0];
      NoneNamed([entry], "body");
    }
    EntrySettles(p, setting, xhtmlText);
  }

  // ---------------------------------------------------------------- the normal form

  ghost predicate NonEmptyTrimmed(s: Option<string>) {
    s.Some? && s.value != "" && IsTrimmed(s.value)
  }

  predicate LinkNormal(link: Link) {
    && NonEmpty(link.href).Some?
    && link.rel != Some("") && link.kind != Some("") && link.title != Some("") && link.ref != Some("")
  }

  /** A post in normal form. */
  ghost predicate Normal(p: Post) {
    && p.body != "" && IsTrimmed(p.body)
    && NonEmptyTrimmed(p.title) && NonEmptyTrimmed(p.summary) && NonEmptyTrimmed(p.atomId)
    && (if p.author.None? then Blank(p.from) else NonEmptyTrimmed(p.author))
    && p.publishedAt != "" && p.updatedAt != ""
    && p.categories.Some? && (forall c | c in p.categories.value :: !Blank(c))
    && p.links.Some? && HasAlternate(p.links.value) && (forall l | l in p.links.value :: LinkNormal(l))
  }

  lemma {:induction false} KeptCategoriesSameIff(categories: seq<string>)
    ensures |KeptCategories(categories)| <= |categories|
    ensures KeptCategories(categories) == categories <==> forall c | c in categories :: !Blank(c)
    ensures forall c | c in KeptCategories(categories) :: !Blank(c)
  {
    if categories == [] {
    } else {
      KeptCategoriesSameIff(categories[1..]);
      assert categories == [categories[0]] + categories[1..];
    }
  }

  lemma {:induction false} KeptLinksSameIff(links: seq<Link>)
    ensures |KeptLinks(links)| <= |links|
    ensures KeptLinks(links) == links <==> forall l | l in links :: LinkNormal(l)
    ensures forall l | l in KeptLinks(links) :: LinkNormal(l)
  {
    if links == [] {
    } else {
      KeptLinksSameIff(links[1..]);
      var kept, rest := KeptLinks(links), KeptLinks(links[1..]);
      assert links == [links[0]] + links[1..];
      if NonEmpty(links[0].href).Some? {
        assert kept == [Cleaned(links[0])] + rest;
        assert kept[0] == Cleaned(links[0]) && kept[1..] == rest;
        assert Cleaned(links[0]) == links[0] <==> LinkNormal(links[0]);
      } else {
        assert kept == rest;
        assert links[0] in links && !LinkNormal(links[0]);
      }
    }
  }

  /** An alternate link that has an address. */
  ghost predicate HasUsableAlternate(links: seq<Link>) {
    exists l | l in links :: l.rel == Some("alternate") && NonEmpty(l.href).Some?
  }

  lemma {:induction false} KeptAlternateIff(links: seq<Link>)
    ensures HasAlternate(KeptLinks(links)) <==> HasUsableAlternate(links)
  {
    if links == [] {
    } else {
      KeptAlternateIff(links[1..]);
      var kept, rest := KeptLinks(links), KeptLinks(links[1..]);
      if NonEmpty(links[0].href).Some? {
        assert kept == [Cleaned(links[0])] + rest;
        assert forall i | 0 <= i < |rest| :: kept[i + 1] == rest[i];
        assert kept[0] == Cleaned(links[0]);
      } else {
        assert kept == rest;
      }
      assert links == [links[0]] + links[1..];
    }
  }

  /** The post names an alternate link, but none with an address: the trip drops it and adds no other. */
  ghost predicate AlternateLost(p: Post) {
    HasAlternate(p.links.GetOr([])) && !HasUsableAlternate(p.links.GetOr([]))
  }

  lemma SettledLinks(p: Post, setting: Setting)
    ensures HasAlternate(KeptLinks(AllLinks(p, setting))) <==> !AlternateLost(p)
  {
    var links, all := p.links.GetOr([]), AllLinks(p, setting);
    KeptAlternateIff(all);
    if !HasAlternate(links) {
      assert all[0] in all && NonEmpty(all[0].href).Some? by {
        assert all[0].href.value[0] == 'x';
      }
    }
  }

  lemma LinksStayIff(p: Post, setting: Setting)
    requires p.links.Some?
    ensures KeptLinks(AllLinks(p, setting)) == p.links.value <==>
            HasAlternate(p.links.value) && forall l | l in p.links.value :: LinkNormal(l)
  {
    var links := p.links.value;
    KeptLinksSameIff(links);
    KeptLinksSameIff(AllLinks(p, setting));
    SettledLinks(p, setting);
    if !HasAlternate(links) {
      assert !AlternateLost(p);
    }
  }

  lemma TextsStayIff(p: Post, setting: Setting)
    ensures Some(Title(p)) == p.title <==> NonEmptyTrimmed(p.title)
    ensures Some(Trim(AtomId(p, setting.now))) == p.atomId <==> NonEmptyTrimmed(p.atomId)
    ensures p.body != "" && IsTrimmed(p.body) ==>
              (NonEmpty(Some(Summary(p))) == p.summary <==> NonEmptyTrimmed(p.summary))
    ensures NonEmpty(Some(Or(TrimText(p.author), Trim(p.from)))) == p.author <==>
            if p.author.None? then Blank(p.from) else NonEmptyTrimmed(p.author)
  {
    TitleMeans(p);
    SummaryMeans(p);
    AtomIdMeans(p, setting.now);
    TrimTrims(p.title.GetOr(""));
    TrimTrims(p.atomId.GetOr(""));
    TrimTrims(AtomId(p, setting.now));
    TrimTrims(p.summary.GetOr(""));
    TrimTrims(p.author.GetOr(""));
    TrimTrims(p.from);
    TrimTrims(p.body);
  }

  /** A trip changes nothing exactly when the post is in normal form. */
  lemma TripFixesIff(p: Post, setting: Setting, xhtmlText: Element -> string)
    requires p.id != "" && setting.now != ""
    ensures Trip(p, setting, xhtmlText) == Some(p) <==> Normal(p)
  {
    TripSettles(p, setting, xhtmlText);
    TextsStayIff(p, setting);
    TextsSettle(p, setting.now);
    KeptCategoriesSameIff(p.categories.GetOr([]));
    if p.links.Some? {
      LinksStayIff(p, setting);
    }
    BodyStaysIff(p);
  }

  lemma BodyStaysIff(p: Post)
    ensures Or(Trim(Or(p.body, Or(Summary(p), Title(p)))), Title(p)) == p.body <==> p.body != "" && IsTrimmed(p.body)
  {
    TitleMeans(p);
    TrimTrims(p.body);
    TrimTrims(Summary(p));
    TrimTrims(Title(p));
    SummaryMeans(p);
  }

  /** What a trip makes is in normal form but for two things. */
  lemma SettledIsNormalIff(p: Post, setting: Setting)
    requires setting.now != ""
    ensures Normal(Settled(p, setting)) <==> !(Blank(p.body) && Blank(p.summary.GetOr(""))) && !AlternateLost(p)
  {
    TextsSettle(p, setting.now);
    TitleMeans(p);
    SummaryMeans(p);
    TrimTrims(AtomId(p, setting.now));
    TrimTrims(p.author.GetOr(""));
    TrimTrims(p.from);
    TrimTrims(Or(p.body, Or(Summary(p), Title(p))));
    KeptCategoriesSameIff(p.categories.GetOr([]));
    KeptLinksSameIff(AllLinks(p, setting));
    SettledLinks(p, setting);
  }

  /**
   * A second trip, at any later time, changes nothing exactly when the body or the summary
   * says something, and an alternate link, if the post has one, has an address.
   */
  lemma SecondTripIff(p: Post, setting: Setting, later: Setting, xhtmlText: Element -> string)
    requires p.id != "" && setting.now != "" && later.now != ""
    ensures var q := Trip(p, setting, xhtmlText);
      && q.Some?
      && (Trip(q.value, later, xhtmlText) == q <==>
           !(Blank(p.body) && Blank(p.summary.GetOr(""))) && !AlternateLost(p))
  {
    TripSettles(p, setting, xhtmlText);
    TripFixesIff(Settled(p, setting), later, xhtmlText);
    SettledIsNormalIff(p, setting);
  }
}
