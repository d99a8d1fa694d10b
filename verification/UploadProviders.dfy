/** Who serves an upload: merging and extending provider lists (src/core/xmpp-uploads.ts:114-162). */
module UploadProviders {
  import opened Jids
  import opened Wrappers
  import opened OrderedMaps

  /** An empty `jid` stands for a missing one. */
  datatype Provider = Provider(url: string, jid: string)

  /** The parts of an upload manifest that gossip reads and writes. */
  datatype Manifest = Manifest(cid: string, getUrl: string, from: string, providers: seq<Provider>)

  predicate StartsWith(s: string, lowerPrefix: string) {
    |lowerPrefix| <= |s| && forall i | 0 <= i < |lowerPrefix| :: Lower(s[i]) == lowerPrefix[i]
  }

  predicate Fetchable(url: string) {
    StartsWith(url, "http://") || StartsWith(url, "https://") || StartsWith(url, "p2p-upload://")
  }

  function Listed(m: Manifest): seq<Provider> {
    m.providers + (if Fetchable(m.getUrl) then [Provider(m.getUrl, m.from)] else [])
  }

  // ---------------------------------------------------------------- what merging means

  /** The first jid given for a url, passing over missing ones. */
  function FirstJid(ps: seq<Provider>, url: string): string {
    if ps == [] then ""
    else if ps[0].url == url && ps[0].jid != "" then ps[0].jid
    else FirstJid(ps[1..], url)
  }

  predicate HasUrl(ps: seq<Provider>, url: string) {
    exists i | 0 <= i < |ps| :: ps[i].url == url
  }

  ghost predicate UrlDistinct(ps: seq<Provider>) {
    forall i, j | 0 <= i < j < |ps| :: ps[i].url != ps[j].url
  }

  /** `merged` lists every non-empty url of `ps` once, with its first jid. */
  ghost predicate IsMergeOf(merged: seq<Provider>, ps: seq<Provider>) {
    && UrlDistinct(merged)
    && (forall url :: HasUrl(merged, url) <==> url != "" && HasUrl(ps, url))
    && (forall i | 0 <= i < |merged| :: merged[i].jid == FirstJid(ps, merged[i].url))
  }

  lemma {:induction false} FirstJidAppend(ps: seq<Provider>, p: Provider, url: string)
    ensures FirstJid(ps + [p], url) ==
      if FirstJid(ps, url) != "" then FirstJid(ps, url) else if p.url == url then p.jid else ""
  {
    if ps == [] {
      assert ps + [p] == [p];
    } else {
      assert (ps + [p])[1..] == ps[1..] + [p];
      FirstJidAppend(ps[1..], p, url);
    }
  }

  lemma {:induction false} FirstJidOfUnmentioned(ps: seq<Provider>, url: string)
    requires !HasUrl(ps, url)
    ensures FirstJid(ps, url) == ""
  {
    if ps == [] {
    } else {
      assert ps[0].url != url;
      assert forall i | 0 <= i < |ps[1..]| :: ps[1..][i] == ps[i + 1];
      FirstJidOfUnmentioned(ps[1..], url);
    }
  }

  // ---------------------------------------------------------------- merging

  /** The map the merge loop has built after `ps`. */
  ghost predicate MergedSoFar(merged: OrderedMap<string, Provider>, ps: seq<Provider>) {
    && (forall url :: url in merged.at <==> url != "" && HasUrl(ps, url))
    && (forall url | url in merged.at :: merged.at[url] == Provider(url, FirstJid(ps, url)))
  }

  lemma HasUrlAppend(ps: seq<Provider>, p: Provider, url: string)
    ensures HasUrl(ps + [p], url) <==> HasUrl(ps, url) || url == p.url
  {
    var qs := ps + [p];
    assert qs[|ps|] == p && forall i | 0 <= i < |ps| :: qs[i] == ps[i];
    if HasUrl(ps, url) {
      var i :| 0 <= i < |ps| && ps[i].url == url;
      assert qs[i].url == url;
    }
  }

  lemma MergedMeans(merged: OrderedMap<string, Provider>, ps: seq<Provider>)
    requires MergedSoFar(merged, ps)
    ensures IsMergeOf(Values(merged), ps)
  {
    var vs := Values(merged);
    forall i | 0 <= i < |vs|
      ensures vs[i] == Provider(merged.keys[i], FirstJid(ps, merged.keys[i]))
    {
      assert merged.keys[i] in merged.keys;
    }
    forall url
      ensures HasUrl(vs, url) <==> url in merged.at
    {
      if url in merged.at {
        assert url in merged.keys;
        var i :| 0 <= i < |merged.keys| && merged.keys[i] == url;
        assert vs[i].url == url;
      }
    }
  }

  /** One turn of the merge loop. */
  function MergeOne(byUrl: OrderedMap<string, Provider>, p: Provider): OrderedMap<string, Provider> {
    if p.url == "" then byUrl
    else if p.url in byUrl.at then
      var existing := byUrl.at[p.url];
      Set(byUrl, p.url, Provider(existing.url, if existing.jid != "" then existing.jid else p.jid))
    else Set(byUrl, p.url, p)
  }

  function MergeAll(ps: seq<Provider>): OrderedMap<string, Provider>
    decreases |ps|
  {
    if ps == [] then Empty() else MergeOne(MergeAll(ps[..|ps| - 1]), ps[|ps| - 1])
  }

  function Normalized(manifest: Manifest): seq<Provider> {
    Values(MergeAll(Listed(manifest)))
  }

  /** `normalizeUploadProviders`. */
  method NormalizeUploadProviders(manifest: Manifest) returns (merged: seq<Provider>)
    ensures IsMergeOf(merged, Listed(manifest))
    ensures merged == Normalized(manifest)
  {
    var providers := Listed(manifest);
    var byUrl: OrderedMap<string, Provider> := Empty();
    for i := 0 to |providers|
      invariant byUrl == MergeAll(providers[..i])
    {
      var provider := providers[i];
      assert providers[..i + 1][..i] == providers[..i];
      if provider.url == "" {
        continue;
      }
      if provider.url in byUrl.at {
        var existing := byUrl.at[provider.url];
        byUrl := Set(byUrl, provider.url, Provider(existing.url, if existing.jid != "" then existing.jid else provider.jid));
      } else {
        byUrl := Set(byUrl, provider.url, provider);
      }
    }
    assert providers[..|providers|] == providers;
    NormalizedMerges(manifest);
    return Values(byUrl);
  }

  lemma MergeOneMerges(byUrl: OrderedMap<string, Provider>, ps: seq<Provider>, p: Provider)
    requires MergedSoFar(byUrl, ps)
    ensures MergedSoFar(MergeOne(byUrl, p), ps + [p])
  {
    var next := MergeOne(byUrl, p);
    forall url
      ensures url in next.at <==> url != "" && HasUrl(ps + [p], url)
    {
      HasUrlAppend(ps, p, url);
    }
    forall url | url in next.at
      ensures next.at[url] == Provider(url, FirstJid(ps + [p], url))
    {
      FirstJidAppend(ps, p, url);
      if url !in byUrl.at {
        FirstJidOfUnmentioned(ps, url);
      }
    }
  }

  lemma {:induction false} MergeAllMerges(ps: seq<Provider>)
    ensures MergedSoFar(MergeAll(ps), ps)
    decreases |ps|
  {
    if ps == [] {
    } else {
      var most, p := ps[..|ps| - 1], ps[|ps| - 1];
      assert ps == most + [p];
      MergeAllMerges(most);
      MergeOneMerges(MergeAll(most), most, p);
    }
  }

  lemma NormalizedMerges(manifest: Manifest)
    ensures IsMergeOf(Normalized(manifest), Listed(manifest))
  {
    MergeAllMerges(Listed(manifest));
    MergedMeans(MergeAll(Listed(manifest)), Listed(manifest));
  }

  // ---------------------------------------------------------------- announcing

  /** `buildUploadProviders`: the merged list, led by this node's own addresses where they are missing. */
  function Built(manifest: Manifest, jid: string, peerUrl: Option<string>, localUrl: Option<string>): seq<Provider> {
    var providers := Normalized(manifest);
    var withPeer :=
      if peerUrl.Some? && !HasUrl(providers, peerUrl.value) then [Provider(peerUrl.value, jid)] + providers else providers;
    if localUrl.Some? && !HasUrl(withPeer, localUrl.value) then [Provider(localUrl.value, jid)] + withPeer else withPeer
  }

  /** What is announced names each address once, keeps all that were known, and adds only the node's own. */
  lemma BuiltAddsOwnAddresses(manifest: Manifest, jid: string, peerUrl: Option<string>, localUrl: Option<string>)
    ensures var ps := Built(manifest, jid, peerUrl, localUrl);
      && UrlDistinct(ps)
      && (forall url :: HasUrl(ps, url) <==>
            HasUrl(Normalized(manifest), url) || peerUrl == Some(url) || localUrl == Some(url))
  {
    NormalizedMerges(manifest);
    var providers := Normalized(manifest);
    var withPeer :=
      if peerUrl.Some? && !HasUrl(providers, peerUrl.value) then [Provider(peerUrl.value, jid)] + providers else providers;
    if peerUrl.Some? {
      LeadWith(providers, Provider(peerUrl.value, jid));
    }
    if localUrl.Some? {
      LeadWith(withPeer, Provider(localUrl.value, jid));
    }
  }

  lemma LeadWith(ps: seq<Provider>, p: Provider)
    requires UrlDistinct(ps)
    ensures !HasUrl(ps, p.url) ==> UrlDistinct([p] + ps)
    ensures forall url :: HasUrl(if HasUrl(ps, p.url) then ps else [p] + ps, url) <==> HasUrl(ps, url) || url == p.url
  {
    var qs := [p] + ps;
    assert qs[0] == p && forall i | 0 <= i < |ps| :: qs[i + 1] == ps[i];
    forall url
      ensures HasUrl(qs, url) <==> HasUrl(ps, url) || url == p.url
    {
      if HasUrl(qs, url) {
        var i :| 0 <= i < |qs| && qs[i].url == url;
        assert i > 0 ==> ps[i - 1].url == url;
      }
      if HasUrl(ps, url) {
        var i :| 0 <= i < |ps| && ps[i].url == url;
        assert qs[i + 1].url == url;
      }
    }
  }

  // ---------------------------------------------------------------- the order of a list

  /** `a` is mentioned before `b`, and before any mention of it. */
  ghost predicate MentionedFirst(ps: seq<Provider>, a: string, b: string) {
    exists k | 0 <= k < |ps| :: ps[k].url == a && forall m | 0 <= m <= k :: ps[m].url != b
  }

  lemma {:induction false} MergedInOrder(ps: seq<Provider>, i: nat, j: nat)
    requires i < j < |MergeAll(ps).keys|
    ensures MentionedFirst(ps, MergeAll(ps).keys[i], MergeAll(ps).keys[j])
    decreases |ps|
  {
    var most, p := ps[..|ps| - 1], ps[|ps| - 1];
    var before := MergeAll(most);
    assert ps == most + [p];
    MergeAllMerges(most);
    assert before.keys[i] in before.keys;
    var a := before.keys[i];
    if j < |before.keys| {
      MergedInOrder(most, i, j);
      var k :| 0 <= k < |most| && most[k].url == a && forall m | 0 <= m <= k :: most[m].url != before.keys[j];
      assert ps[k].url == a && forall m | 0 <= m <= k :: ps[m].url != before.keys[j];
    } else {
      assert MergeAll(ps).keys == before.keys + [p.url] && p.url !in before.at;
      assert HasUrl(most, a);
      var k :| 0 <= k < |most| && most[k].url == a;
      forall m | 0 <= m <= k
        ensures ps[m].url != p.url
      {
        assert ps[m] == most[m];
        assert p.url != "" ==> !HasUrl(most, p.url);
      }
      assert ps[k].url == a;
    }
  }

  /** A normalised list follows the order in which addresses are first mentioned. */
  lemma NormalizedInOrder(manifest: Manifest, i: nat, j: nat)
    requires i < j < |Normalized(manifest)|
    ensures MentionedFirst(Listed(manifest), Normalized(manifest)[i].url, Normalized(manifest)[j].url)
  {
    var merged := MergeAll(Listed(manifest));
    MergeAllMerges(Listed(manifest));
    assert merged.keys[i] in merged.keys && merged.keys[j] in merged.keys;
    MergedInOrder(Listed(manifest), i, j);
  }

  /** What is announced is that list behind the node's own addresses, as far as these are missing: the local one first. */
  lemma BuiltLeads(manifest: Manifest, jid: string, peerUrl: Option<string>, localUrl: Option<string>)
    ensures var ps, known := Built(manifest, jid, peerUrl, localUrl), Normalized(manifest);
      var newPeer := peerUrl.Some? && !HasUrl(known, peerUrl.value);
      var newLocal := localUrl.Some? && localUrl != peerUrl && !HasUrl(known, localUrl.value);
      && |ps| == |known| + (if newPeer then 1 else 0) + (if newLocal then 1 else 0)
      && ps[|ps| - |known|..] == known
      && (newPeer ==> ps[|ps| - |known| - 1] == Provider(peerUrl.value, jid))
      && (newLocal ==> ps[0] == Provider(localUrl.value, jid))
  {
    var known := Normalized(manifest);
    if peerUrl.Some? {
      NormalizedMerges(manifest);
      LeadWith(known, Provider(peerUrl.value, jid));
    }
  }
}
