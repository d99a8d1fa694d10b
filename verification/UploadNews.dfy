/**
 * When a node has to announce an upload, and what the others then know, said of provider lists
 * alone (src/core/xmpp-uploads.ts:335-435). UploadGossip.dfy proves that the cascade stops;
 * this file proves that it speaks.
 */
module UploadNews {
  import opened Jids
  import opened Wrappers
  import opened Sequences
  import opened UploadProviders
  import opened UploadGossip

  /** Some provider of the list has this address. */
  predicate Names(ps: seq<Provider>, url: string) {
    exists p | p in ps :: p.url == url
  }

  lemma NamesIff(ps: seq<Provider>, url: string)
    ensures HasUrl(ps, url) <==> Names(ps, url)
  {
    if HasUrl(ps, url) {
      var i :| 0 <= i < |ps| && ps[i].url == url;
      assert ps[i] in ps;
    }
    if Names(ps, url) {
      var p :| p in ps && p.url == url;
      var i :| 0 <= i < |ps| && ps[i] == p;
      assert ps[i].url == url;
    }
  }

  /** An address that a manifest's own url can be: one of three schemes, in any case. */
  ghost predicate HasScheme(url: string) {
    exists scheme | scheme in ["http://", "https://", "p2p-upload://"] ::
      |scheme| <= |url| && IsFolded(scheme, url[..|scheme|])
  }

  lemma FetchableIff(url: string)
    ensures Fetchable(url) <==> HasScheme(url)
  {
    PrefixIff(url, "http://");
    PrefixIff(url, "https://");
    PrefixIff(url, "p2p-upload://");
    var schemes := ["http://", "https://", "p2p-upload://"];
    assert schemes[0] in schemes && schemes[1] in schemes && schemes[2] in schemes;
  }

  lemma PrefixIff(url: string, scheme: string)
    ensures StartsWith(url, scheme) <==> |scheme| <= |url| && IsFolded(scheme, url[..|scheme|])
  {
    if |scheme| <= |url| {
      var start := url[..|scheme|];
      LowerCaseFolds(start, scheme);
      if StartsWith(url, scheme) {
        assert LowerCase(start) == scheme;
      }
      if LowerCase(start) == scheme {
        assert forall i | 0 <= i < |scheme| :: Lower(url[i]) == LowerCase(start)[i];
      }
    }
  }

  /** What a manifest says of an address: it lists it, or is itself to be had there. */
  ghost predicate Says(m: Manifest, url: string) {
    Names(m.providers, url) || (HasScheme(m.getUrl) && m.getUrl == url)
  }

  lemma ListedSays(m: Manifest, url: string)
    ensures HasUrl(Listed(m), url) <==> Says(m, url)
  {
    FetchableIff(m.getUrl);
    HasUrlEither(m.providers, if Fetchable(m.getUrl) then [Provider(m.getUrl, m.from)] else [], url);
    NamesIff(m.providers, url);
    if Fetchable(m.getUrl) && m.getUrl == url {
      assert [Provider(m.getUrl, m.from)][0].url == url;
    }
  }

  /** A normalised list names exactly the non-empty addresses the manifest says. */
  lemma NormalizedSays(m: Manifest, url: string)
    ensures Names(Normalized(m), url) <==> url != "" && Says(m, url)
  {
    NormalizedMerges(m);
    ListedSays(m, url);
    NamesIff(Normalized(m), url);
  }

  /** What is announced of a manifest: all it says and the node's own addresses, each once, and nothing else. */
  ghost predicate AnnouncesAll(a: Announcement, node: Node, m: Manifest) {
    && a.source == node.jid
    && a.manifest.cid == m.cid && a.manifest.getUrl == m.getUrl && a.manifest.from == m.from
    && UrlDistinct(a.manifest.providers)
    && forall url :: Names(a.manifest.providers, url) <==>
         (url != "" && Says(m, url)) || node.peerUrl == Some(url) || node.localUrl == Some(url)
  }

  lemma AnnounceSays(node: Node, m: Manifest)
    ensures AnnouncesAll(Announce(node, m), node, m)
  {
    var ps := Built(m, node.jid, node.peerUrl, node.localUrl);
    BuiltAddsOwnAddresses(m, node.jid, node.peerUrl, node.localUrl);
    forall url
      ensures Names(ps, url) <==> (url != "" && Says(m, url)) || node.peerUrl == Some(url) || node.localUrl == Some(url)
    {
      NamesIff(ps, url);
      NamesIff(Normalized(m), url);
      NormalizedSays(m, url);
    }
  }

  /** The node's own address stands in what it announces with its own jid. */
  lemma AnnouncedWithJid(node: Node, m: Manifest)
    requires node.localUrl.Some? && node.localUrl.value != "" && node.jid != "" && !Names(m.providers, node.localUrl.value)
    ensures Provider(node.localUrl.value, node.jid) in Announce(node, WithLocal(node, m)).manifest.providers
  {
    var own, local := Provider(node.localUrl.value, node.jid), WithLocal(node, m);
    var listed := Listed(local);
    NamesIff(m.providers, own.url);
    FirstJidOfUnmentioned(m.providers, own.url);
    FirstJidAppend(m.providers, own, own.url);
    if Fetchable(m.getUrl) {
      FirstJidAppend(local.providers, Provider(m.getUrl, m.from), own.url);
    } else {
      assert listed == local.providers;
    }
    assert FirstJid(listed, own.url) == node.jid;
    NormalizedMerges(local);
    assert local.providers[|m.providers|] == own;
    assert own in local.providers && Names(local.providers, own.url);
    NormalizedSays(local, own.url);
    var p :| p in Normalized(local) && p.url == own.url;
    assert p == own;
    BuiltHasAll(local, node.jid, node.peerUrl, node.localUrl, own);
  }

  lemma BuiltHasAll(m: Manifest, jid: string, peerUrl: Option<string>, localUrl: Option<string>, p: Provider)
    requires p in Normalized(m)
    ensures p in Built(m, jid, peerUrl, localUrl)
  {
  }

  // ---------------------------------------------------------------- when a node announces

  /**
   * The end of a fetch: the node announces exactly if it stored the object, has an address,
   * and the list it fetched from does not name that; then it announces all it fetched from.
   */
  lemma FetchSpeaks(node: Node, stored: bool)
    requires NodeInv(node) && node.prefetch.Some?
    ensures var list := node.prefetch.value.manifest;
      var (next, a) := FetchEnded(node, stored);
      && next == node.(prefetch := None, hasObject := stored)
      && (a.Some? <==> stored && node.localUrl.Some? && !Names(list.providers, node.localUrl.value))
      && (a.Some? ==> AnnouncesAll(a.value, node, WithLocal(node, list)))
      && (a.Some? ==> forall url | url != "" && Names(list.providers, url) :: Names(a.value.manifest.providers, url))
      && (a.Some? ==> Names(a.value.manifest.providers, node.localUrl.value))
      && (a.Some? && node.jid != "" ==> Provider(node.localUrl.value, node.jid) in a.value.manifest.providers)
  {
    var list := node.prefetch.value.manifest;
    if node.localUrl.Some? {
      NamesIff(list.providers, node.localUrl.value);
    }
    var (next, a) := FetchEnded(node, stored);
    if a.Some? {
      AnnounceSays(next, WithLocal(node, list));
      WithLocalSays(node, list);
      if node.jid != "" {
        AnnouncedWithJid(node, list);
      }
    }
  }

  lemma WithLocalSays(node: Node, m: Manifest)
    requires node.localUrl.Some?
    ensures forall url :: Names(WithLocal(node, m).providers, url) <==> Names(m.providers, url) || node.localUrl == Some(url)
  {
    var own := Provider(node.localUrl.value, node.jid);
    assert own in m.providers + [own];
    forall url
      ensures Names(m.providers + [own], url) <==> Names(m.providers, url) || own.url == url
    {
      if Names(m.providers, url) {
        var p :| p in m.providers && p.url == url;
        assert p in m.providers + [own];
      }
    }
  }

  /** What a node knows of an address before an announcement, or learns from it. */
  ghost predicate Learns(node: Node, announced: Manifest, url: string) {
    url != "" && ((node.manifest.Some? && Names(node.manifest.value.providers, url)) || Says(announced, url))
  }

  lemma MergedLearns(node: Node, announced: Manifest, source: string, url: string)
    ensures Names(Merged(node, announced, source).providers, url) <==> Learns(node, announced, url)
  {
    var normalized := announced.(providers := Normalized(announced), from := source);
    var known := if node.manifest.Some? then node.manifest.value.providers else [];
    var all := normalized.(providers := known + normalized.providers);
    NormalizedSays(announced, url);
    NormalizedSays(all, url);
    HasUrlEither(known, normalized.providers, url);
    NamesIff(known, url);
    NamesIff(normalized.providers, url);
    NamesIff(all.providers, url);
  }

  /**
   * An announcement arrives: the node knows afterwards what it knew and what it was told. It
   * announces exactly if it holds the object, has an address, and neither names that. Else
   * it fetches from the list exactly if it lacks the object, is not fetching, and the
   * announcement is not its own.
   */
  lemma RecordSpeaks(node: Node, announced: Manifest, source: string)
    requires NodeInv(node)
    ensures var (next, a) := Recorded(node, announced, source);
      && NodeInv(next) && next.manifest.Some?
      && next == node.(manifest := next.manifest, prefetch := next.prefetch)
      && (a.Some? <==> node.hasObject && node.localUrl.Some? && !Learns(node, announced, node.localUrl.value))
      && (forall url :: Names(next.manifest.value.providers, url) <==>
            Learns(node, announced, url) || (a.Some? && node.localUrl == Some(url)))
      && (a.Some? ==> AnnouncesAll(a.value, node, next.manifest.value))
      && (a.Some? && node.jid != "" ==> Provider(node.localUrl.value, node.jid) in a.value.manifest.providers)
      && (next.prefetch != node.prefetch <==> !node.hasObject && node.prefetch.None? && source != node.jid)
  {
    var merged := Merged(node, announced, source);
    RecordedSpends(node, announced, source);
    forall url
      ensures Names(merged.providers, url) <==> Learns(node, announced, url)
    {
      MergedLearns(node, announced, source, url);
    }
    if node.localUrl.Some? {
      NamesIff(merged.providers, node.localUrl.value);
    }
    var (next, a) := Recorded(node, announced, source);
    if a.Some? {
      AnnounceSays(node, WithLocal(node, merged));
      WithLocalSays(node, merged);
      if node.jid != "" {
        AnnouncedWithJid(node, merged);
      }
    }
  }

  /** The list a node starts to fetch from is what it knows then, and the url of the manifest. */
  lemma FetchListSays(node: Node, announced: Manifest, source: string, url: string)
    requires NodeInv(node) && !node.hasObject && node.prefetch.None? && source != node.jid
    ensures var (next, _) := Recorded(node, announced, source);
      next.prefetch.Some? && (Names(next.prefetch.value.manifest.providers, url) <==> Learns(node, announced, url))
  {
    var merged := Merged(node, announced, source);
    MergedLearns(node, announced, source, url);
    NormalizedSays(merged, url);
  }

  // ---------------------------------------------------------------- whole runs

  /** Anything pending can arrive or be lost, and any fetch can end, at any moment. */
  lemma StepsArePossible(s: System, k: nat, i: nat, stored: bool)
    requires Inv(s)
    ensures Possible(s, Deliver(k)) <==> k < |s.pending|
    ensures Possible(s, Lose(k)) <==> k < |s.pending|
    ensures Possible(s, EndFetch(i, stored)) <==> i < |s.nodes| && s.nodes[i].prefetch.Some?
  {
    if k < |s.pending| {
      assert s.pending[k] in s.pending;
    }
  }

  /** Nothing is lost on the way. */
  ghost predicate Lossless(steps: seq<Step>) {
    forall step | step in steps :: !step.Lose?
  }

  /** Node `i` is known to have an address. */
  ghost predicate Knew(node: Node, url: string) {
    node.manifest.Some? && Names(node.manifest.value.providers, url)
  }

  /** Some fetch of node `i` ended with the object, from a list that already named the address. */
  ghost predicate FoundInList(s: System, steps: seq<Step>, i: nat, url: string)
    requires IsRun(s, steps)
    decreases |steps|
  {
    && steps != []
    && ((steps[0] == EndFetch(i, true) && Names(s.nodes[i].prefetch.value.manifest.providers, url))
        || FoundInList(Next(s, steps[0]), steps[1..], i, url))
  }

  lemma DeliverTells(s: System, k: nat, url: string)
    requires Inv(s) && Possible(s, Deliver(k)) && url != "" && Names(s.pending[k].announcement.manifest.providers, url)
    ensures Knew(Next(s, Deliver(k)).nodes[s.pending[k].to], url)
  {
    var d := s.pending[k];
    RecordSpeaks(s.nodes[d.to], d.announcement.manifest, d.announcement.source);
  }

  lemma StaysKnown(s: System, steps: seq<Step>, j: nat, url: string)
    requires Inv(s) && IsRun(s, steps) && j < |s.nodes| && url != "" && Knew(s.nodes[j], url)
    ensures j < |Run(s, steps).nodes| && Knew(Run(s, steps).nodes[j], url)
  {
    RunSpends(s, steps);
    var t := Run(s, steps);
    assert Grows(s.nodes[j], t.nodes[j]);
    NamesIff(s.nodes[j].manifest.value.providers, url);
    NamesIff(t.nodes[j].manifest.value.providers, url);
  }

  lemma StillPending(s: System, step: Step, d: Delivery)
    requires Possible(s, step) && !step.Lose? && d in s.pending && (step.Deliver? ==> s.pending[step.k] != d)
    ensures d in Next(s, step).pending
  {
    if step.Deliver? {
      var n :| 0 <= n < |s.pending| && s.pending[n] == d;
      var rest := RemoveAt(s.pending, step.k);
      assert if n < step.k then rest[n] == d else rest[n - 1] == d;
      assert d in rest;
    }
  }

  /** What is on its way in a run that loses nothing and leaves nothing pending is known in the end. */
  lemma {:induction false} PendingIsLearned(s: System, steps: seq<Step>, d: Delivery, url: string)
    requires Inv(s) && IsRun(s, steps) && Lossless(steps) && Run(s, steps).pending == []
    requires d in s.pending && url != "" && Names(d.announcement.manifest.providers, url)
    ensures d.to < |Run(s, steps).nodes| && Knew(Run(s, steps).nodes[d.to], url)
    decreases |steps|
  {
    var step, rest := steps[0], steps[1..];
    assert step in steps && forall x | x in rest :: x in steps;
    StepSpends(s, step);
    if step.Deliver? && s.pending[step.k] == d {
      DeliverTells(s, step.k, url);
      StaysKnown(Next(s, step), rest, d.to, url);
    } else {
      StillPending(s, step, d);
      PendingIsLearned(Next(s, step), rest, d, url);
    }
  }

  /** Only the end of a fetch gives a node the object. */
  lemma ObjectComesFromFetch(s: System, step: Step, i: nat)
    requires Inv(s) && Possible(s, step) && i < |s.nodes| && !s.nodes[i].hasObject
    ensures |Next(s, step).nodes| == |s.nodes|
    ensures Next(s, step).nodes[i].hasObject ==> step == EndFetch(i, true)
    ensures Next(s, step).nodes[i].localUrl == s.nodes[i].localUrl
  {
    if step.Deliver? {
      var d := s.pending[step.k];
      RecordSpeaks(s.nodes[d.to], d.announcement.manifest, d.announcement.source);
    } else if step.EndFetch? {
      FetchSpeaks(s.nodes[step.i], step.stored);
    }
  }

  /** The end of a fetch from a list that does not name the node puts the news on its way to every node. */
  lemma FetchTellsAll(s: System, i: nat, j: nat)
    requires Inv(s) && Possible(s, EndFetch(i, true)) && j < |s.nodes| && s.nodes[i].localUrl.Some?
    requires !Names(s.nodes[i].prefetch.value.manifest.providers, s.nodes[i].localUrl.value)
    ensures var t := Next(s, EndFetch(i, true));
      && t.announced[i] == s.announced[i] + 1
      && exists d | d in t.pending :: d.to == j && Names(d.announcement.manifest.providers, s.nodes[i].localUrl.value)
  {
    FetchSpeaks(s.nodes[i], true);
    var a := FetchEnded(s.nodes[i], true).1.value;
    var t := Next(s, EndFetch(i, true));
    assert t.pending[|s.pending| + j] == Broadcast(|s.nodes|, a)[j];
    assert Delivery(j, a) in t.pending;
  }

  /**
   * News spreads: in a run that loses nothing and leaves nothing pending, every node that
   * got the object and has an address is in the end known to every node to have it, unless
   * the list it fetched from named it already.
   */
  lemma {:induction false} EveryoneLearns(s: System, steps: seq<Step>, i: nat)
    requires Inv(s) && IsRun(s, steps) && Lossless(steps) && Run(s, steps).pending == []
    requires i < |s.nodes| == |Run(s, steps).nodes|
    requires s.nodes[i].localUrl.Some? && !s.nodes[i].hasObject && Run(s, steps).nodes[i].hasObject
    ensures var url := s.nodes[i].localUrl.value;
      FoundInList(s, steps, i, url) || forall j | 0 <= j < |s.nodes| :: Knew(Run(s, steps).nodes[j], url)
    decreases |steps|
  {
    var step, rest := steps[0], steps[1..];
    var t, url := Next(s, step), s.nodes[i].localUrl.value;
    assert step in steps && forall x | x in rest :: x in steps;
    StepSpends(s, step);
    ObjectComesFromFetch(s, step, i);
    if !t.nodes[i].hasObject {
      EveryoneLearns(t, rest, i);
    } else if !Names(s.nodes[i].prefetch.value.manifest.providers, url) {
      forall j | 0 <= j < |s.nodes|
        ensures Knew(Run(s, steps).nodes[j], url)
      {
        FetchTellsAll(s, i, j);
        var d :| d in t.pending && d.to == j && Names(d.announcement.manifest.providers, url);
        PendingIsLearned(t, rest, d, url);
      }
    }
  }
}
