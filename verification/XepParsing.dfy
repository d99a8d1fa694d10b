/**
 * What is parsed from any element, said of its children alone (src/core/xmpp-xep-helpers.ts:46-154;
 * XEP-0085, XEP-0184 and XEP-0280), receipts and carbons included.
 */
module XepParsing {
  import opened Wrappers
  import opened XepHelpers

  predicate HasXmlns(e: Element, xmlns: string) {
    "xmlns" in e.attrs && e.attrs["xmlns"] == xmlns
  }

  /** The first child of `e` with this name is `child`, and it is in the namespace. */
  ghost predicate Holds(e: Element, name: string, xmlns: string, child: Element) {
    IsFirst(e.children, name, child) && HasXmlns(child, xmlns)
  }

  lemma ChildInIff(e: Element, name: string, xmlns: string, child: Element)
    ensures ChildIn(e, name, xmlns) == Some(child) <==> Holds(e, name, xmlns, child)
    ensures ChildIn(e, name, xmlns).Some? ==> Holds(e, name, xmlns, ChildIn(e, name, xmlns).value)
  {
    FirstNamedIff(e.children, name, child);
    var first := FirstNamed(e.children, name);
    if first.Some? {
      FirstNamedIff(e.children, name, first.value);
    }
  }

  // ---------------------------------------------------------------- carbons

  /** A carbon holds a forwarded message. */
  ghost predicate Wraps(wrapper: Element, message: Element) {
    exists f :: Holds(wrapper, "forwarded", "urn:xmpp:forward:0", f) && IsFirst(f.children, "message", message)
  }

  lemma WrapsIff(wrapper: Element, message: Element)
    ensures Forwarded(wrapper) == Some(message) <==> Wraps(wrapper, message)
  {
    var f := ChildIn(wrapper, "forwarded", FORWARD_XMLNS);
    if f.Some? {
      ChildInIff(wrapper, "forwarded", FORWARD_XMLNS, f.value);
      FirstNamedIff(f.value.children, "message", message);
    }
    if Wraps(wrapper, message) {
      var g :| Holds(wrapper, "forwarded", "urn:xmpp:forward:0", g) && IsFirst(g.children, "message", message);
      ChildInIff(wrapper, "forwarded", FORWARD_XMLNS, g);
    }
  }

  predicate IsReceipt(child: Element) {
    child.name == "received" && HasXmlns(child, "urn:xmpp:receipts")
  }

  ghost predicate IsCarbon(child: Element) {
    child.name == "received" && HasXmlns(child, "urn:xmpp:carbons:2") && exists m :: Wraps(child, m)
  }

  lemma NextIs(found: (Option<Receipt>, Option<Carbon>), child: Element)
    ensures IsReceipt(child) ==>
              NextReceived(found, child) ==
              (Some(ReceiptReceived(if "id" in child.attrs then Some(child.attrs["id"]) else None)), found.1)
    ensures forall m | child.name == "received" && HasXmlns(child, "urn:xmpp:carbons:2") && Wraps(child, m) ::
              NextReceived(found, child) == (found.0, Some(CarbonReceived(m)))
    ensures !IsReceipt(child) && !IsCarbon(child) ==> NextReceived(found, child) == found
  {
    assert RECEIPTS_XMLNS[9] != CARBONS_XMLNS[9];
    forall m
      ensures Forwarded(child) == Some(m) <==> Wraps(child, m)
    {
      WrapsIff(child, m);
    }
    if Forwarded(child).Some? {
      assert Wraps(child, Forwarded(child).value);
    }
  }

  /** The receipt among the `received` children: the last one; what was there before if there is none. */
  lemma {:induction false} LastReceipt(start: Option<Receipt>, before: seq<Element>, child: Element, after: seq<Element>)
    requires IsReceipt(child) && forall c | c in after :: !IsReceipt(c)
    ensures ReceivedOf(start, before + [child] + after).0 ==
            Some(ReceiptReceived(if "id" in child.attrs then Some(child.attrs["id"]) else None))
    decreases |after|
  {
    var all := before + [child] + after;
    NextIs(ReceivedOf(start, all[..|all| - 1]), all[|all| - 1]);
    if after == [] {
      assert all[|all| - 1] == child;
    } else {
      var most := after[..|after| - 1];
      assert all[..|all| - 1] == before + [child] + most && all[|all| - 1] == after[|after| - 1];
      assert after[|after| - 1] in after;
      LastReceipt(start, before, child, most);
      KeepsReceipt(ReceivedOf(start, all[..|all| - 1]), all[|all| - 1]);
    }
  }

  lemma KeepsReceipt(found: (Option<Receipt>, Option<Carbon>), child: Element)
    requires !IsReceipt(child)
    ensures NextReceived(found, child).0 == found.0
  {
    NextIs(found, child);
    if IsCarbon(child) {
      var m :| Wraps(child, m);
    }
  }

  lemma {:induction false} NoReceipt(start: Option<Receipt>, children: seq<Element>)
    requires forall c | c in children :: !IsReceipt(c)
    ensures ReceivedOf(start, children).0 == start
    decreases |children|
  {
    if children == [] {
    } else {
      var most, last := children[..|children| - 1], children[|children| - 1];
      assert children == most + [last];
      NoReceipt(start, most);
      KeepsReceipt(ReceivedOf(start, most), last);
    }
  }

  lemma KeepsCarbon(found: (Option<Receipt>, Option<Carbon>), child: Element)
    requires !IsCarbon(child)
    ensures NextReceived(found, child).1 == found.1
  {
    NextIs(found, child);
  }

  lemma {:induction false} LastCarbon(start: Option<Receipt>, before: seq<Element>, child: Element, m: Element, after: seq<Element>)
    requires IsCarbon(child) && Wraps(child, m) && forall c | c in after :: !IsCarbon(c)
    ensures ReceivedOf(start, before + [child] + after).1 == Some(CarbonReceived(m))
    decreases |after|
  {
    var all := before + [child] + after;
    NextIs(ReceivedOf(start, all[..|all| - 1]), all[|all| - 1]);
    if after == [] {
      assert all[|all| - 1] == child;
    } else {
      var most := after[..|after| - 1];
      assert all[..|all| - 1] == before + [child] + most && all[|all| - 1] == after[|after| - 1];
      assert after[|after| - 1] in after;
      LastCarbon(start, before, child, m, most);
      KeepsCarbon(ReceivedOf(start, all[..|all| - 1]), all[|all| - 1]);
    }
  }

  lemma {:induction false} NoCarbon(start: Option<Receipt>, children: seq<Element>)
    requires forall c | c in children :: !IsCarbon(c)
    ensures ReceivedOf(start, children).1 == None
    decreases |children|
  {
    if children == [] {
    } else {
      var most, last := children[..|children| - 1], children[|children| - 1];
      assert children == most + [last];
      NoCarbon(start, most);
      KeepsCarbon(ReceivedOf(start, most), last);
    }
  }

  // ---------------------------------------------------------------- what an element says

  /** The receipt of an element: the last one received, and without any, the one asked for if the element has an id. */
  lemma ReceiptIs(e: Element, before: seq<Element>, child: Element, after: seq<Element>)
    ensures e.children == before + [child] + after && IsReceipt(child) && (forall c | c in after :: !IsReceipt(c)) ==>
              Parsed(e).receipt == Some(ReceiptReceived(if "id" in child.attrs then Some(child.attrs["id"]) else None))
    ensures (forall c | c in e.children :: !IsReceipt(c)) ==>
              Parsed(e).receipt ==
              if (exists request :: Holds(e, "request", "urn:xmpp:receipts", request)) && "id" in e.attrs && e.attrs["id"] != ""
              then Some(ReceiptRequest(e.attrs["id"])) else None
  {
    if e.children == before + [child] + after && IsReceipt(child) && (forall c | c in after :: !IsReceipt(c)) {
      LastReceipt(RequestOf(e), before, child, after);
    }
    if forall c | c in e.children :: !IsReceipt(c) {
      NoReceipt(RequestOf(e), e.children);
      RequestIs(e);
    }
  }

  lemma RequestIs(e: Element)
    ensures RequestOf(e) ==
            if (exists request :: Holds(e, "request", "urn:xmpp:receipts", request)) && "id" in e.attrs && e.attrs["id"] != ""
            then Some(ReceiptRequest(e.attrs["id"])) else None
  {
    forall request
      ensures ChildIn(e, "request", RECEIPTS_XMLNS) == Some(request) <==> Holds(e, "request", "urn:xmpp:receipts", request)
    {
      ChildInIff(e, "request", RECEIPTS_XMLNS, request);
    }
    var found := ChildIn(e, "request", RECEIPTS_XMLNS);
    assert found.Some? ==> Holds(e, "request", "urn:xmpp:receipts", found.value);
  }

  /** The carbon of an element: a sent one if it wraps a message, else the last received one that does. */
  lemma CarbonIs(e: Element, sent: Element, m: Element)
    ensures Holds(e, "sent", "urn:xmpp:carbons:2", sent) && Wraps(sent, m) ==> Parsed(e).carbon == Some(CarbonSent(m))
  {
    if Holds(e, "sent", "urn:xmpp:carbons:2", sent) && Wraps(sent, m) {
      ChildInIff(e, "sent", CARBONS_XMLNS, sent);
      WrapsIff(sent, m);
    }
  }

  lemma ReceivedCarbonIs(e: Element)
    requires forall sent, m | Holds(e, "sent", "urn:xmpp:carbons:2", sent) :: !Wraps(sent, m)
    ensures forall before, child, m, after | e.children == before + [child] + after && IsCarbon(child) && Wraps(child, m)
                && (forall c | c in after :: !IsCarbon(c)) ::
              Parsed(e).carbon == Some(CarbonReceived(m))
    ensures (forall c | c in e.children :: !IsCarbon(c)) ==> Parsed(e).carbon == None
  {
    var sent := ChildIn(e, "sent", CARBONS_XMLNS);
    if sent.Some? {
      ChildInIff(e, "sent", CARBONS_XMLNS, sent.value);
      if Forwarded(sent.value).Some? {
        WrapsIff(sent.value, Forwarded(sent.value).value);
      }
    }
    forall before, child, m, after | e.children == before + [child] + after && IsCarbon(child) && Wraps(child, m)
        && (forall c | c in after :: !IsCarbon(c))
      ensures Parsed(e).carbon == Some(CarbonReceived(m))
    {
      LastCarbon(None, before, child, m, after);
    }
    if forall c | c in e.children :: !IsCarbon(c) {
      NoCarbon(None, e.children);
    }
  }

  /** The element has a chat state child of this name. */
  ghost predicate Shows(e: Element, name: string) {
    exists child :: Holds(e, name, "urn:xmpp:chatstates", child)
  }

  lemma ShowsIff(e: Element, name: string)
    ensures ChildIn(e, name, CHATSTATES_XMLNS).Some? <==> Shows(e, name)
  {
    var found := ChildIn(e, name, CHATSTATES_XMLNS);
    if found.Some? {
      ChildInIff(e, name, CHATSTATES_XMLNS, found.value);
    }
    if Shows(e, name) {
      var child :| Holds(e, name, "urn:xmpp:chatstates", child);
      ChildInIff(e, name, CHATSTATES_XMLNS, child);
    }
  }

  /** The chat state of an element: the first, in this order, for which it has a child. */
  lemma ChatStateIs(e: Element)
    ensures Parsed(e).chatState ==
      if Shows(e, "active") then Some(Active)
      else if Shows(e, "composing") then Some(Composing)
      else if Shows(e, "paused") then Some(Paused)
      else if Shows(e, "inactive") then Some(Inactive)
      else if Shows(e, "gone") then Some(Gone)
      else None
  {
    ShowsIff(e, "active");
    ShowsIff(e, "composing");
    ShowsIff(e, "paused");
    ShowsIff(e, "inactive");
    ShowsIff(e, "gone");
    FiveStates(e);
  }

  lemma FiveStates(e: Element)
    ensures FirstState(e, CHAT_STATES) ==
      if ChildIn(e, "active", CHATSTATES_XMLNS).Some? then Some(Active)
      else if ChildIn(e, "composing", CHATSTATES_XMLNS).Some? then Some(Composing)
      else if ChildIn(e, "paused", CHATSTATES_XMLNS).Some? then Some(Paused)
      else if ChildIn(e, "inactive", CHATSTATES_XMLNS).Some? then Some(Inactive)
      else if ChildIn(e, "gone", CHATSTATES_XMLNS).Some? then Some(Gone)
      else None
  {
    FirstStateCons(e, Active, [Composing, Paused, Inactive, Gone]);
    FirstStateCons(e, Composing, [Paused, Inactive, Gone]);
    FirstStateCons(e, Paused, [Inactive, Gone]);
    FirstStateCons(e, Inactive, [Gone]);
    FirstStateCons(e, Gone, []);
    assert [Active] + [Composing, Paused, Inactive, Gone] == CHAT_STATES;
    assert [Composing] + [Paused, Inactive, Gone] == [Composing, Paused, Inactive, Gone];
    assert [Paused] + [Inactive, Gone] == [Paused, Inactive, Gone];
    assert [Inactive] + [Gone] == [Inactive, Gone] && [Gone] + [] == [Gone];
  }

  lemma FirstStateCons(e: Element, state: ChatState, rest: seq<ChatState>)
    ensures FirstState(e, [state] + rest) ==
            if ChildIn(e, StateName(state), CHATSTATES_XMLNS).Some? then Some(state) else FirstState(e, rest)
  {
    assert ([state] + rest)[1..] == rest;
  }
}
