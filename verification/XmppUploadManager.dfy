/** One node's upload announcements, as kept in the fields of its manager (src/core/xmpp-uploads.ts:145-162, 335-435). */
module XmppUploads {
  import opened Wrappers
  import opened Jids
  import opened UploadProviders
  import opened UploadGossip

  class XmppUploadManager {
    const jid: string
    const uploadBaseUrl: Option<string>
    const encodeURIComponent: string -> string

    var uploadManifests: map<string, Manifest>
    var uploadPrefetches: map<string, Prefetch>
    var storedObjects: set<string>
    var published: seq<Announcement>

    constructor (jid: string, uploadBaseUrl: Option<string>, encodeURIComponent: string -> string)
      ensures this.jid == jid && this.uploadBaseUrl == uploadBaseUrl && this.encodeURIComponent == encodeURIComponent
      ensures published == [] && Valid()
      ensures forall cid :: View(cid) == UploadGossip.Node(jid, PeerUrl(cid), GetUploadContentUrl(cid), None, false, None)
    {
      this.jid, this.uploadBaseUrl, this.encodeURIComponent := jid, uploadBaseUrl, encodeURIComponent;
      uploadManifests, uploadPrefetches, storedObjects, published := map[], map[], {}, [];
    }

    function PeerUrl(cid: string): Option<string> {
      var peerId := Before(jid, '@');
      if peerId == "" then None
      else Some("p2p-upload://peer/" + encodeURIComponent(peerId) + "/" + encodeURIComponent(cid))
    }

    function GetUploadContentUrl(cid: string): Option<string> {
      match uploadBaseUrl
      case None => None
      case Some(base) => Some(base + "/ipfs/" + encodeURIComponent(cid))
    }

    /** Each prefetch is of the object under whose id it is kept. */
    ghost predicate Valid()
      reads this`uploadPrefetches
    {
      forall cid | cid in uploadPrefetches :: uploadPrefetches[cid].manifest.cid == cid
    }

    /** This node as the cascade over one content id sees it. */
    function View(cid: string): UploadGossip.Node
      reads this`uploadManifests, this`uploadPrefetches, this`storedObjects
    {
      UploadGossip.Node(
        jid,
        PeerUrl(cid),
        GetUploadContentUrl(cid),
        if cid in uploadManifests then Some(uploadManifests[cid]) else None,
        cid in storedObjects,
        if cid in uploadPrefetches then Some(uploadPrefetches[cid]) else None)
    }

    method Normalize(manifest: Manifest) returns (providers: seq<Provider>)
      ensures providers == Normalized(manifest)
    {
      providers := NormalizeUploadProviders(manifest);
    }

    method BuildUploadProviders(manifest: Manifest) returns (providers: seq<Provider>)
      ensures providers == Built(manifest, jid, PeerUrl(manifest.cid), GetUploadContentUrl(manifest.cid))
    {
      providers := Normalize(manifest);
      var localUrl := GetUploadContentUrl(manifest.cid);
      var peerUrl := PeerUrl(manifest.cid);
      if peerUrl.Some? && !HasUrl(providers, peerUrl.value) {
        providers := [Provider(peerUrl.value, jid)] + providers;
      }
      if localUrl.Some? && !HasUrl(providers, localUrl.value) {
        providers := [Provider(localUrl.value, jid)] + providers;
      }
    }

    method AnnounceUploadManifest(manifest: Manifest)
      modifies this`published
      ensures published == old(published) + [Announce(old(View(manifest.cid)), manifest)]
    {
      var providers := BuildUploadProviders(manifest);
      published := published + [Announcement(manifest.(providers := providers), jid)];
    }

    /** The announced manifest with the providers known before it as well. */
    method MergeWithKnown(manifest: Manifest, sourceJid: string) returns (merged: Manifest)
      ensures merged == Merged(View(manifest.cid), manifest, sourceJid)
    {
      var announced := Normalize(manifest);
      var normalized := manifest.(providers := announced, from := sourceJid);
      var known := if manifest.cid in uploadManifests then uploadManifests[manifest.cid].providers else [];
      var mergedProviders := Normalize(normalized.(providers := known + announced));
      merged := normalized.(providers := mergedProviders);
    }

    method StartPrefetch(manifest: Manifest)
      modifies this`uploadPrefetches
      ensures var remote := manifest.(providers := Normalized(manifest));
        uploadPrefetches == old(uploadPrefetches)[
          manifest.cid := Prefetch(remote, Knows(remote, GetUploadContentUrl(manifest.cid)))]
    {
      var remoteProviders := Normalize(manifest);
      var remote := manifest.(providers := remoteProviders);
      uploadPrefetches :=
        uploadPrefetches[manifest.cid := Prefetch(remote, Knows(remote, GetUploadContentUrl(manifest.cid)))];
    }

    method Keep(merged: Manifest, sourceJid: string)
      modifies this
      ensures var (node, a) := Kept(old(View(merged.cid)), merged, sourceJid);
        && View(merged.cid) == node
        && published == old(published) + (if a.Some? then [a.value] else [])
      ensures uploadManifests - {merged.cid} == old(uploadManifests) - {merged.cid}
      ensures uploadPrefetches - {merged.cid} == old(uploadPrefetches) - {merged.cid}
      ensures storedObjects == old(storedObjects)
      ensures old(Valid()) ==> Valid()
    {
      var cid := merged.cid;
      ghost var was := View(cid);
      uploadManifests := uploadManifests[cid := merged];
      assert View(cid) == was.(manifest := Some(merged));
      var localUrl := GetUploadContentUrl(cid);
      if localUrl.Some? && cid in storedObjects && !HasUrl(merged.providers, localUrl.value) {
        var localManifest := merged.(providers := merged.providers + [Provider(localUrl.value, jid)]);
        uploadManifests := uploadManifests[cid := localManifest];
        AnnounceUploadManifest(localManifest);
      } else if sourceJid != jid && cid !in uploadPrefetches && cid !in storedObjects {
        StartPrefetch(merged);
      }
    }

    /** An announcement arrives. Nothing but its own content id is touched. */
    method RecordUploadManifest(manifest: Manifest, sourceJid: string) returns (first: bool)
      requires Valid()
      modifies this
      ensures Valid()
      ensures first <==> manifest.cid !in old(uploadManifests)
      ensures var (node, a) := Recorded(old(View(manifest.cid)), manifest, sourceJid);
        && View(manifest.cid) == node
        && published == old(published) + (if a.Some? then [a.value] else [])
      ensures uploadManifests - {manifest.cid} == old(uploadManifests) - {manifest.cid}
      ensures uploadPrefetches - {manifest.cid} == old(uploadPrefetches) - {manifest.cid}
      ensures storedObjects == old(storedObjects)
    {
      first := manifest.cid !in uploadManifests;
      var merged := MergeWithKnown(manifest, sourceJid);
      Keep(merged, sourceJid);
    }

    /** The end of `fetchAndCacheUpload`: some provider served the object, or none did. */
    method EndPrefetch(cid: string, available: bool)
      requires Valid() && cid in uploadPrefetches
      modifies this
      ensures Valid()
      ensures var (node, a) := FetchEnded(old(View(cid)), available);
        && View(cid) == node
        && published == old(published) + (if a.Some? then [a.value] else [])
      ensures uploadManifests == old(uploadManifests)
      ensures uploadPrefetches == old(uploadPrefetches) - {cid}
      ensures storedObjects == if available then old(storedObjects) + {cid} else old(storedObjects)
    {
      var fetch := uploadPrefetches[cid];
      if available {
        storedObjects := storedObjects + {cid};
        var localUrl := GetUploadContentUrl(cid);
        if localUrl.Some? && !fetch.hadLocalProvider {
          AnnounceUploadManifest(
            fetch.manifest.(providers := fetch.manifest.providers + [Provider(localUrl.value, jid)]));
        }
      }
      uploadPrefetches := uploadPrefetches - {cid};
    }
  }
}
