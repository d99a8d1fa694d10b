/**
 * Which messages an archive query is answered with, said of the query element and the addresses
 * of the messages alone (src/core/xmpp-chat.ts:211-236).
 */
module ChatQueries {
  import opened Wrappers
  import opened Sequences
  import opened Jids
  import opened XepHelpers
  import opened ChatArchive

  /** The address itself, or one of its resources. */
  predicate IsAt(full: string, bare: string) {
    full == bare || bare + "/" <= full
  }

  /** Sent by the address or to it. */
  predicate Concerns(m: Message, bare: string) {
    IsAt(m.from, bare) || IsAt(m.to, bare)
  }

  lemma MatchesIff(m: Message, bare: string, with: string)
    requires '/' !in bare && IsAt(with, bare)
    ensures Matches(m, Some(with)) <==> Concerns(m, bare)
  {
    BeforeIff(with, bare, '/');
    BeforeIff(m.from, bare, '/');
    BeforeIff(m.to, bare, '/');
  }

  /** The messages of an address, in the order of the archive. */
  function Concerning(ms: seq<Message>, bare: string): seq<Message>
    decreases |ms|
  {
    if ms == [] then []
    else
      var rest := Concerning(ms[1..], bare);
      if Concerns(ms[0], bare) then [ms[0]] + rest else rest
  }

  lemma {:induction false} FilterCons<T>(x: T, xs: seq<T>, p: T -> bool)
    ensures Filter([x] + xs, p) == (if p(x) then [x] else []) + Filter(xs, p)
    decreases |xs|
  {
    if xs == [] {
      assert [x] + xs == [x] && [x][..0] == [];
    } else {
      var most, last := xs[..|xs| - 1], xs[|xs| - 1];
      assert ([x] + xs)[..|xs|] == [x] + most;
      FilterCons(x, most, p);
      Associates(if p(x) then [x] else [], Filter(most, p), if p(last) then [last] else []);
    }
  }

  /**
   * Asked for an address, with or without a resource, an archive answers with exactly the
   * messages sent by that address or to it, in order; asked for none, with all.
   */
  lemma {:induction false} WantedIs(ms: seq<Message>, bare: string, with: string)
    requires '/' !in bare && IsAt(with, bare)
    ensures Wanted(ms, Some(with)) == Concerning(ms, bare)
    ensures forall m :: m in Wanted(ms, Some(with)) <==> m in ms && Concerns(m, bare)
    decreases |ms|
  {
    if ms == [] {
    } else {
      WantedIs(ms[1..], bare, with);
      MatchesIff(ms[0], bare, with);
      FilterCons(ms[0], ms[1..], Matching(Some(with)));
      assert ms == [ms[0]] + ms[1..];
    }
  }

  lemma WantedWithoutAddress(ms: seq<Message>)
    ensures Wanted(ms, None) == ms
  {
    WantedMeans(ms, None);
  }

  // ---------------------------------------------------------------- the form of a query

  /** A field of a form that asks for an address. */
  predicate IsWithField(f: Element) {
    f.name == "field" && "var" in f.attrs && f.attrs["var"] == "with"
  }

  lemma {:induction false} WithFieldIsLast(before: seq<Element>, f: Element, after: seq<Element>)
    requires IsWithField(f) && forall g | g in after :: !IsWithField(g)
    ensures WithField(before + [f] + after) ==
            if FirstNamed(f.children, "value").Some? then Some(FirstNamed(f.children, "value").value.text) else None
    decreases |after|
  {
    var all := before + [f] + after;
    if after == [] {
      assert all == before + [f] && all[|all| - 1] == f;
    } else {
      var most, last := after[..|after| - 1], after[|after| - 1];
      assert last in after;
      assert all[..|all| - 1] == before + [f] + most && all[|all| - 1] == last;
      WithFieldIsLast(before, f, most);
    }
  }

  lemma {:induction false} NoWithField(fields: seq<Element>)
    requires forall g | g in fields :: !IsWithField(g)
    ensures WithField(fields) == None
    decreases |fields|
  {
    if fields == [] {
    } else {
      var most, last := fields[..|fields| - 1], fields[|fields| - 1];
      assert fields == most + [last];
      assert !IsWithField(last);
      NoWithField(most);
    }
  }

  /** The form of a query: its first child called `x`, if that is a data form. */
  ghost predicate HasForm(query: Element, form: Element) {
    && "xmlns" in form.attrs && form.attrs["xmlns"] == "jabber:x:data"
    && IsFirst(query.children, "x", form)
  }

  /**
   * The address a query asks for: the value of the last field called `with` of its form. A
   * query without a form, without such a field, or with an empty value asks for all messages.
   */
  lemma WithIs(query: Element, form: Element, before: seq<Element>, f: Element, after: seq<Element>, value: Element)
    requires HasForm(query, form) && form.children == before + [f] + after
    requires IsWithField(f) && forall g | g in after :: !IsWithField(g)
    requires IsFirst(f.children, "value", value)
    ensures WithOf(query) == if value.text == "" then None else Some(value.text)
  {
    FirstNamedIff(query.children, "x", form);
    FirstNamedIff(f.children, "value", value);
    WithFieldIsLast(before, f, after);
  }

  /** Without a form, or with one that has no such field. */
  lemma NoWithAsksForAll(query: Element)
    requires forall form, g | HasForm(query, form) && g in form.children :: !IsWithField(g)
    ensures WithOf(query) == None
  {
    var x := FirstNamed(query.children, "x");
    if x.Some? {
      FirstNamedIff(query.children, "x", x.value);
      if HasForm(query, x.value) {
        NoWithField(x.value.children);
      }
    }
  }

  /** A field without a value counts as none, even after one with. */
  lemma ValuelessAsksForAll(query: Element, form: Element, before: seq<Element>, f: Element, after: seq<Element>)
    requires HasForm(query, form) && form.children == before + [f] + after
    requires IsWithField(f) && forall g | g in after :: !IsWithField(g)
    requires forall x | x in f.children :: x.name != "value"
    ensures WithOf(query) == None
  {
    FirstNamedIff(query.children, "x", form);
    FirstNamedIff(f.children, "value", f);
    WithFieldIsLast(before, f, after);
  }

  /** The query asks for this address, or for a resource of it. */
  ghost predicate AsksFor(query: Element, bare: string) {
    '/' !in bare && WithOf(query).Some? && IsAt(WithOf(query).value, bare)
  }

  // ---------------------------------------------------------------- the stanzas of an answer

  /** The stanza that carries a message, element by element. */
  lemma AnswerIs(m: Message, queryId: Option<string>, to: string, from: string, now: string)
    ensures var message := Element(
        "message", map["to" := m.to, "from" := m.from, "type" := if m.kind == "" then "chat" else m.kind, "id" := m.id], "",
        (if m.body == "" then [] else [Element("body", map[], m.body, [])]) + Built(OptionsOf(m)));
      var delay := Element(
        "delay", map["xmlns" := "urn:xmpp:delay", "stamp" := if Stamp(m) == "" then now else Stamp(m)], "", []);
      var forwarded := Element("forwarded", map["xmlns" := "urn:xmpp:forward:0"], "", [delay, message]);
      var attrs := map["xmlns" := "urn:xmpp:mam:2", "id" := m.id];
      var result := Element(
        "result", if queryId.Some? then attrs["queryid" := queryId.value] else attrs, "", [forwarded]);
      Wrapper(m, queryId, to, from, now) == Element("message", map["to" := to, "from" := from], "", [result])
  {
  }

  /** The value of an attribute; empty when it is missing. */
  function AttrOr(e: Element, name: string): string {
    if name in e.attrs then e.attrs[name] else ""
  }

  /** The delay a forwarded message comes with. */
  ghost predicate IsDelayOf(delay: Option<Delay>, forwarded: Element) {
    if exists d :: IsFirst(forwarded.children, "delay", d) && AttrOr(d, "stamp") != "" then
      exists d :: IsFirst(forwarded.children, "delay", d) && AttrOr(d, "stamp") != ""
        && delay == Some(Delay(d.attrs["stamp"], if "from" in d.attrs then Some(d.attrs["from"]) else None))
    else delay == None
  }

  lemma DelayIs(forwarded: Element)
    ensures IsDelayOf(DelayFrom(FirstNamed(forwarded.children, "delay")), forwarded)
  {
    var found := FirstNamed(forwarded.children, "delay");
    if found.Some? {
      FirstNamedIff(forwarded.children, "delay", found.value);
    }
    forall d | IsFirst(forwarded.children, "delay", d)
      ensures found == Some(d)
    {
      FirstNamedIff(forwarded.children, "delay", d);
    }
  }

  /**
   * What is taken from any stanza with a result that forwards a message: its addresses and
   * body, its own id or else that of the result, its type or else `chat`, and what its
   * elements say, with the delay it was forwarded with if it has none itself.
   */
  lemma ReceivedIs(e: Element, result: Element, forwarded: Element, inner: Element)
    requires IsFirst(e.children, "result", result) && IsFirst(result.children, "forwarded", forwarded)
    requires IsFirst(forwarded.children, "message", inner)
    ensures ReceivedFrom(e).Some?
    ensures var m, meta := ReceivedFrom(e).value, XepHelpers.Parsed(inner);
      && m.from == AttrOr(inner, "from") && m.to == AttrOr(inner, "to")
      && m.id == (if AttrOr(inner, "id") != "" then AttrOr(inner, "id") else AttrOr(result, "id"))
      && m.kind == (if AttrOr(inner, "type") != "" then AttrOr(inner, "type") else "chat")
      && (forall body | IsFirst(inner.children, "body", body) :: m.body == body.text)
      && ((forall c | c in inner.children :: c.name != "body") ==> m.body == "")
      && m.meta == meta.(delay := m.meta.delay)
      && (if meta.delay.Some? then m.meta.delay == meta.delay else IsDelayOf(m.meta.delay, forwarded))
    ensures QueryIdOf(e) == if "queryid" in result.attrs then Some(result.attrs["queryid"]) else None
  {
    ReceivedUnpacks(e, result, forwarded, inner);
    DelayIs(forwarded);
    UnpackedBody(inner, FirstNamed(forwarded.children, "delay"), Attr(result, "id"));
    UnpackedFields(inner, FirstNamed(forwarded.children, "delay"), Attr(result, "id"));
  }

  lemma ReceivedUnpacks(e: Element, result: Element, forwarded: Element, inner: Element)
    requires IsFirst(e.children, "result", result) && IsFirst(result.children, "forwarded", forwarded)
    requires IsFirst(forwarded.children, "message", inner)
    ensures ReceivedFrom(e) == Some(Unpacked(inner, FirstNamed(forwarded.children, "delay"), Attr(result, "id")))
    ensures QueryIdOf(e) == Attr(result, "queryid")
  {
    FirstNamedIff(e.children, "result", result);
    FirstNamedIff(result.children, "forwarded", forwarded);
    FirstNamedIff(forwarded.children, "message", inner);
  }

  lemma UnpackedBody(inner: Element, delay: Option<Element>, resultId: Option<string>)
    ensures forall body | IsFirst(inner.children, "body", body) :: Unpacked(inner, delay, resultId).body == body.text
    ensures (forall c | c in inner.children :: c.name != "body") ==> Unpacked(inner, delay, resultId).body == ""
  {
    forall body | IsFirst(inner.children, "body", body)
      ensures FirstNamed(inner.children, "body") == Some(body)
    {
      FirstNamedIff(inner.children, "body", body);
    }
    FirstNamedIff(inner.children, "body", inner);
  }

  lemma UnpackedFields(inner: Element, delay: Option<Element>, resultId: Option<string>)
    ensures var m, meta := Unpacked(inner, delay, resultId), XepHelpers.Parsed(inner);
      && m.from == AttrOr(inner, "from") && m.to == AttrOr(inner, "to")
      && m.id == (if AttrOr(inner, "id") != "" then AttrOr(inner, "id") else resultId.GetOr(""))
      && m.kind == (if AttrOr(inner, "type") != "" then AttrOr(inner, "type") else "chat")
      && m.meta == meta.(delay := m.meta.delay)
      && m.meta.delay == if meta.delay.Some? then meta.delay else DelayFrom(delay)
  {
  }

  /** A stanza is recorded after those before it, or changes nothing. */
  lemma ReceivedInTurn(h: History, es: seq<Element>, e: Element)
    ensures ReceiveAll(h, []) == h
    ensures ReceivedFrom(e).None? ==> ReceiveAll(h, es + [e]) == ReceiveAll(h, es)
    ensures ReceivedFrom(e).Some? ==> ReceiveAll(h, es + [e]) == Record(ReceiveAll(h, es), ReceivedFrom(e).value)
  {
    assert (es + [e])[..|es|] == es;
  }

  /** Any other stanza is ignored. */
  lemma OthersAreIgnored(e: Element)
    requires forall result, forwarded, inner |
               IsFirst(e.children, "result", result) && IsFirst(result.children, "forwarded", forwarded) ::
               !IsFirst(forwarded.children, "message", inner)
    ensures ReceivedFrom(e) == None
  {
    var result := FirstNamed(e.children, "result");
    if result.Some? {
      FirstNamedIff(e.children, "result", result.value);
      var forwarded := FirstNamed(result.value.children, "forwarded");
      if forwarded.Some? {
        FirstNamedIff(result.value.children, "forwarded", forwarded.value);
        var inner := FirstNamed(forwarded.value.children, "message");
        if inner.Some? {
          FirstNamedIff(forwarded.value.children, "message", inner.value);
        }
      }
    }
  }
}
