/**
 * The cascade of upload announcements among any number of nodes
 * (src/core/xmpp-uploads.ts:218-268 and 335-435), for one content id and after the last
 * local upload of it. Each handler runs atomically, except that fetching the object from
 * another node begins in one step and ends in another. Sorting the providers to try is left
 * to the outcome of the fetch.
 */
module UploadGossip {
  import opened Wrappers
  import opened Sequences
  import opened UploadProviders

  /** An object being fetched: what it will be stored and announced as. */
  datatype Prefetch = Prefetch(manifest: Manifest, hadLocalProvider: bool)

  datatype Node = Node(
    jid: string,
    peerUrl: Option<string>,
    localUrl: Option<string>,
    manifest: Option<Manifest>,
    hasObject: bool,
    prefetch: Option<Prefetch>)

  datatype Announcement = Announcement(manifest: Manifest, source: string)

  predicate Knows(manifest: Manifest, localUrl: Option<string>) {
    localUrl.Some? && HasUrl(manifest.providers, localUrl.value)
  }

  /** `announceUploadManifest`. */
  function Announce(node: Node, manifest: Manifest): Announcement {
    Announcement(manifest.(providers := Built(manifest, node.jid, node.peerUrl, node.localUrl)), node.jid)
  }

  function WithLocal(node: Node, manifest: Manifest): Manifest
    requires node.localUrl.Some?
  {
    manifest.(providers := manifest.providers + [Provider(node.localUrl.value, node.jid)])
  }

  /** The manifest `recordUploadManifest` merges an announced one into. */
  function Merged(node: Node, announced: Manifest, source: string): Manifest {
    var normalized := announced.(providers := Normalized(announced), from := source);
    var known := if node.manifest.Some? then node.manifest.value.providers else [];
    normalized.(providers := Normalized(normalized.(providers := known + normalized.providers)))
  }

  /** `recordUploadManifest`: the node afterwards, and what it announces. */
  function Recorded(node: Node, announced: Manifest, source: string): (Node, Option<Announcement>) {
    Kept(node, Merged(node, announced, source), source)
  }

  /** The rest of `recordUploadManifest`, once the merged manifest is known. */
  function Kept(node: Node, merged: Manifest, source: string): (Node, Option<Announcement>) {
    if node.localUrl.Some? && node.hasObject && !Knows(merged, node.localUrl) then
      var local := WithLocal(node, merged);
      (node.(manifest := Some(local)), Some(Announce(node, local)))
    else
      var recorded := node.(manifest := Some(merged));
      if source == node.jid || node.prefetch.Some? || node.hasObject then (recorded, None)
      else
        var remote := merged.(providers := Normalized(merged));
        (recorded.(prefetch := Some(Prefetch(remote, Knows(remote, node.localUrl)))), None)
  }

  /** The end of `fetchAndCacheUpload`, which stored the object or did not. */
  function FetchEnded(node: Node, stored: bool): (Node, Option<Announcement>)
    requires node.prefetch.Some?
  {
    var fetch := node.prefetch.value;
    if !stored then (node.(prefetch := None), None)
    else
      var owner := node.(prefetch := None, hasObject := true);
      (owner, if node.localUrl.Some? && !fetch.hadLocalProvider then Some(Announce(node, WithLocal(node, fetch.manifest))) else None)
  }

  // ---------------------------------------------------------------- the network

  datatype Delivery = Delivery(to: nat, announcement: Announcement)

  /** `announced[i]` counts the announcements of node `i`. */
  datatype System = System(nodes: seq<Node>, pending: seq<Delivery>, announced: seq<nat>)

  /** A pending delivery arrives or is lost; a fetch ends. */
  datatype Step = Deliver(k: nat) | Lose(k: nat) | EndFetch(i: nat, stored: bool)

  predicate Possible(s: System, step: Step) {
    && |s.announced| == |s.nodes|
    && match step
       case Deliver(k) => k < |s.pending| && s.pending[k].to < |s.nodes|
       case Lose(k) => k < |s.pending|
       case EndFetch(i, _) => i < |s.nodes| && s.nodes[i].prefetch.Some?
  }

  function RemoveAt(pending: seq<Delivery>, k: nat): seq<Delivery>
    requires k < |pending|
  {
    pending[..k] + pending[k + 1..]
  }

  function Broadcast(n: nat, a: Announcement): (ds: seq<Delivery>)
    ensures |ds| == n
  {
    seq(n, j requires 0 <= j < n => Delivery(j, a))
  }

  /** Node `i` becomes `node` and its announcement, if any, is on its way to every node. */
  function Update(s: System, i: nat, node: Node, a: Option<Announcement>): System
    requires i < |s.nodes| == |s.announced|
  {
    match a
    case None => s.(nodes := s.nodes[i := node])
    case Some(announcement) =>
      System(s.nodes[i := node], s.pending + Broadcast(|s.nodes|, announcement), s.announced[i := s.announced[i] + 1])
  }

  function Next(s: System, step: Step): System
    requires Possible(s, step)
  {
    match step
    case Deliver(k) =>
      var d := s.pending[k];
      var (node, a) := Recorded(s.nodes[d.to], d.announcement.manifest, d.announcement.source);
      Update(s.(pending := RemoveAt(s.pending, k)), d.to, node, a)
    case Lose(k) => s.(pending := RemoveAt(s.pending, k))
    case EndFetch(i, stored) =>
      var (node, a) := FetchEnded(s.nodes[i], stored);
      Update(s, i, node, a)
  }

  ghost predicate IsRun(s: System, steps: seq<Step>)
    decreases |steps|
  {
    steps == [] || (Possible(s, steps[0]) && IsRun(Next(s, steps[0]), steps[1..]))
  }

  function Run(s: System, steps: seq<Step>): System
    requires IsRun(s, steps)
    decreases |steps|
  {
    if steps == [] then s else Run(Next(s, steps[0]), steps[1..])
  }

  // ---------------------------------------------------------------- one node

  /**
   * A node that fetches has no object yet and remembers whether the list it fetches from
   * names its own address, which is not empty.
   */
  ghost predicate NodeInv(node: Node) {
    && node.localUrl != Some("")
    && (node.prefetch.Some? ==>
          !node.hasObject && (node.prefetch.value.hadLocalProvider <==> Knows(node.prefetch.value.manifest, node.localUrl)))
    && (node.manifest.Some? ==> UrlDistinct(node.manifest.value.providers))
  }

  /** What a node may still announce: its address missing from its manifest, and the object it lacks. */
  function Potential(node: Node): nat {
    (if node.localUrl.Some? && !(node.manifest.Some? && Knows(node.manifest.value, node.localUrl)) then 1 else 0)
    + (if node.hasObject then 0 else 1)
  }

  /** Addresses and identity stay, and no known provider is forgotten. */
  ghost predicate Grows(node: Node, next: Node) {
    && next.jid == node.jid && next.peerUrl == node.peerUrl && next.localUrl == node.localUrl
    && (node.hasObject ==> next.hasObject)
    && (node.manifest.Some? ==> next.manifest.Some? && Includes(next.manifest.value.providers, node.manifest.value.providers))
  }

  ghost predicate Includes(more: seq<Provider>, ps: seq<Provider>) {
    forall url | url != "" && HasUrl(ps, url) :: HasUrl(more, url)
  }

  lemma HasUrlEither(xs: seq<Provider>, ys: seq<Provider>, url: string)
    ensures HasUrl(xs + ys, url) <==> HasUrl(xs, url) || HasUrl(ys, url)
  {
    var zs := xs + ys;
    if HasUrl(xs, url) {
      var i :| 0 <= i < |xs| && xs[i].url == url;
      assert zs[i].url == url;
    }
    if HasUrl(ys, url) {
      var i :| 0 <= i < |ys| && ys[i].url == url;
      assert zs[|xs| + i].url == url;
    }
  }

  lemma MergedKeepsKnown(node: Node, announced: Manifest, source: string)
    ensures var merged := Merged(node, announced, source);
      && UrlDistinct(merged.providers)
      && (node.manifest.Some? ==> Includes(merged.providers, node.manifest.value.providers))
  {
    var normalized := announced.(providers := Normalized(announced), from := source);
    var known := if node.manifest.Some? then node.manifest.value.providers else [];
    var all := normalized.(providers := known + normalized.providers);
    NormalizedMerges(all);
    forall url | url != "" && HasUrl(known, url)
      ensures HasUrl(Normalized(all), url)
    {
      HasUrlEither(known, normalized.providers, url);
      HasUrlEither(all.providers, Listed(all)[|all.providers|..], url);
      assert Listed(all) == all.providers + Listed(all)[|all.providers|..];
    }
  }

  lemma IncludesAppend(more: seq<Provider>, ps: seq<Provider>, p: Provider)
    requires Includes(more, ps)
    ensures Includes(more + [p], ps) && HasUrl(more + [p], p.url)
    ensures UrlDistinct(more) && !HasUrl(more, p.url) ==> UrlDistinct(more + [p])
  {
    forall url | url != "" && HasUrl(ps, url)
      ensures HasUrl(more + [p], url)
    {
      HasUrlAppend(more, p, url);
    }
    HasUrlAppend(more, p, p.url);
  }

  /** Recording spends potential whenever it announces. */
  lemma RecordedSpends(node: Node, announced: Manifest, source: string)
    requires NodeInv(node)
    ensures var (next, a) := Recorded(node, announced, source);
      && NodeInv(next) && Grows(node, next)
      && Potential(next) + (if a.Some? then 1 else 0) <= Potential(node)
      && (a.Some? ==> next.prefetch == node.prefetch)
  {
    var merged := Merged(node, announced, source);
    MergedKeepsKnown(node, announced, source);
    if node.localUrl.Some? && node.hasObject && !Knows(merged, node.localUrl) {
      var known := if node.manifest.Some? then node.manifest.value.providers else [];
      IncludesAppend(merged.providers, known, Provider(node.localUrl.value, node.jid));
    } else {
      RecordedQuietly(node, announced, source);
    }
  }

  lemma RecordedQuietly(node: Node, announced: Manifest, source: string)
    requires NodeInv(node)
    requires var merged := Merged(node, announced, source);
      && !(node.localUrl.Some? && node.hasObject && !Knows(merged, node.localUrl))
      && UrlDistinct(merged.providers)
      && (node.manifest.Some? ==> Includes(merged.providers, node.manifest.value.providers))
    ensures var (next, a) := Recorded(node, announced, source);
      && NodeInv(next) && Grows(node, next) && a.None?
      && Potential(next) <= Potential(node)
  {
    var merged := Merged(node, announced, source);
    var (next, a) := Recorded(node, announced, source);
    assert next.manifest == Some(merged);
    assert next == node.(manifest := Some(merged), prefetch := next.prefetch);
  }

  /** So does ending a fetch. */
  lemma FetchEndedSpends(node: Node, stored: bool)
    requires NodeInv(node) && node.prefetch.Some?
    ensures var (next, a) := FetchEnded(node, stored);
      && NodeInv(next) && Grows(node, next) && next.prefetch.None?
      && Potential(next) + (if a.Some? then 1 else 0) <= Potential(node)
  {
  }

  // ---------------------------------------------------------------- the whole network

  ghost predicate Inv(s: System) {
    && |s.announced| == |s.nodes|
    && (forall i | 0 <= i < |s.nodes| :: NodeInv(s.nodes[i]))
    && (forall d | d in s.pending :: d.to < |s.nodes|)
  }

  function Fetching(node: Node): nat {
    if node.prefetch.Some? then 1 else 0
  }

  /** The bound: each announcement still possible is worth what its deliveries can cause. */
  function Weight(s: System): nat {
    2 * |s.nodes| * Sum(s.nodes, Potential) + 2 * |s.pending| + Sum(s.nodes, Fetching)
  }

  /** What one announcement is worth: two per node. */
  lemma Worth(n: nat, p: nat, q: nat, spent: nat)
    requires q + spent <= p
    ensures 2 * n * q + 2 * n * spent <= 2 * n * p
  {
    var rest := p - q - spent;
    assert 2 * n * p == 2 * n * q + 2 * n * spent + 2 * n * rest;
  }

  lemma UpdateWeight(s: System, i: nat, node: Node, a: Option<Announcement>)
    requires i < |s.nodes| == |s.announced|
    requires Potential(node) + (if a.Some? then 1 else 0) <= Potential(s.nodes[i])
    ensures Weight(Update(s, i, node, a)) + Fetching(s.nodes[i]) <= Weight(s) + Fetching(node)
  {
    var t := Update(s, i, node, a);
    SumUpdate(s.nodes, i, node, Potential);
    SumUpdate(s.nodes, i, node, Fetching);
    Worth(|s.nodes|, Sum(s.nodes, Potential), Sum(t.nodes, Potential), if a.Some? then 1 else 0);
  }

  /** How the nodes stand to those of an earlier state: nothing is forgotten, announcing costs potential. */
  ghost predicate Spent(s: System, t: System) {
    && |t.nodes| == |s.nodes| == |t.announced| == |s.announced|
    && (forall j | 0 <= j < |s.nodes| :: Grows(s.nodes[j], t.nodes[j]))
    && (forall j | 0 <= j < |s.nodes| :: Potential(t.nodes[j]) + t.announced[j] <= Potential(s.nodes[j]) + s.announced[j])
  }

  /** A node changes as `RecordedSpends` and `FetchEndedSpends` say. */
  lemma UpdateSpends(s: System, i: nat, node: Node, a: Option<Announcement>)
    requires Inv(s) && i < |s.nodes|
    requires NodeInv(node) && Grows(s.nodes[i], node)
    requires Potential(node) + (if a.Some? then 1 else 0) <= Potential(s.nodes[i])
    ensures var t := Update(s, i, node, a);
      && Inv(t) && Spent(s, t)
      && Weight(t) + Fetching(s.nodes[i]) <= Weight(s) + Fetching(node)
  {
    UpdateWeight(s, i, node, a);
    forall j | 0 <= j < |s.nodes|
      ensures Grows(s.nodes[j], Update(s, i, node, a).nodes[j])
    {
    }
  }

  lemma StepSpends(s: System, step: Step)
    requires Inv(s) && Possible(s, step)
    ensures var t := Next(s, step);
      && Inv(t) && Spent(s, t)
      && Weight(t) < Weight(s)
  {
    match step
    case Deliver(k) =>
      var d := s.pending[k];
      var s' := s.(pending := RemoveAt(s.pending, k));
      assert forall x | x in s'.pending :: x in s.pending;
      assert d in s.pending;
      var (node, a) := Recorded(s.nodes[d.to], d.announcement.manifest, d.announcement.source);
      RecordedSpends(s.nodes[d.to], d.announcement.manifest, d.announcement.source);
      UpdateSpends(s', d.to, node, a);
    case Lose(k) =>
      assert forall x | x in RemoveAt(s.pending, k) :: x in s.pending;
    case EndFetch(i, stored) =>
      var (node, a) := FetchEnded(s.nodes[i], stored);
      FetchEndedSpends(s.nodes[i], stored);
      UpdateSpends(s, i, node, a);
  }

  lemma SpentTwice(s: System, u: System, t: System)
    requires Spent(s, u) && Spent(u, t)
    ensures Spent(s, t)
  {
    forall j | 0 <= j < |s.nodes|
      ensures Grows(s.nodes[j], t.nodes[j])
      ensures Potential(t.nodes[j]) + t.announced[j] <= Potential(s.nodes[j]) + s.announced[j]
    {
      assert Grows(s.nodes[j], u.nodes[j]) && Grows(u.nodes[j], t.nodes[j]);
    }
  }

  lemma {:induction false} RunSpends(s: System, steps: seq<Step>)
    requires Inv(s) && IsRun(s, steps)
    ensures var t := Run(s, steps);
      && Inv(t) && Spent(s, t)
      && |steps| + Weight(t) <= Weight(s)
    decreases |steps|
  {
    if steps == [] {
    } else {
      var u := Next(s, steps[0]);
      StepSpends(s, steps[0]);
      RunSpends(u, steps[1..]);
      SpentTwice(s, u, Run(s, steps));
    }
  }

  /**
   * The cascade stops: a run is no longer than the weight it starts with. On the way each
   * node announces at most twice, no node forgets a provider, and every recorded list
   * names each address once.
   */
  lemma GossipStops(s: System, steps: seq<Step>)
    requires Inv(s) && IsRun(s, steps)
    ensures |steps| <= Weight(s)
    ensures var t := Run(s, steps);
      && Inv(t) && |t.nodes| == |s.nodes|
      && (forall j | 0 <= j < |s.nodes| ::
            && t.announced[j] <= s.announced[j] + Potential(s.nodes[j]) <= s.announced[j] + 2
            && Grows(s.nodes[j], t.nodes[j]))
  {
    RunSpends(s, steps);
  }
}
