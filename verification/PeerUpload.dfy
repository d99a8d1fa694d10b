/**
 * Fetching an upload straight from a peer: the streaming reader `fetchUploadFromPeer`
 * (src/core/xmpp-node.ts:1224-1275) and the writer `handlePeerUploadRequest`
 * (src/core/xmpp-uploads.ts:176-216). JSON is a parameter; so is how the stream cuts bytes
 * into chunks.
 */
module PeerUpload {
  import opened Wrappers

  type byte = x: int | 0 <= x < 256
  type bytes = seq<byte>

  const NEWLINE: byte := 10
  const MAX_HEADER_BYTES := 2048
  const MAX_REQUEST_BYTES := 2048
  const MAX_PEER_UPLOAD_BYTES := 50 * 1024 * 1024
  const SEND_CHUNK_BYTES := 64 * 1024

  const MAX_SAFE_INTEGER := 9007199254740991

  /** What `Number.isSafeInteger` accepts. */
  type SafeInteger = n: int | -MAX_SAFE_INTEGER <= n <= MAX_SAFE_INTEGER

  /** What the reader looks at in a header; `size` is absent unless it is a safe integer. */
  datatype Header = Header(ok: bool, cid: string, size: Option<SafeInteger>)

  /** What the writer puts into one. */
  datatype ResponseHeader = ResponseHeader(ok: bool, cid: string, size: nat, contentType: string, filename: string)

  function Flatten(chunks: seq<bytes>): bytes
    decreases |chunks|
  {
    if chunks == [] then [] else Flatten(chunks[..|chunks| - 1]) + chunks[|chunks| - 1]
  }

  /** `indexOf(10)`: the position of the first newline, or the length when there is none. */
  function LineEnd(s: bytes): (n: nat)
    ensures n <= |s|
    ensures forall i | 0 <= i < n :: s[i] != NEWLINE
    ensures n < |s| ==> s[n] == NEWLINE
  {
    if s == [] || s[0] == NEWLINE then 0 else 1 + LineEnd(s[1..])
  }

  predicate Accepted(header: Option<Header>, cid: string) {
    && header.Some? && header.value.ok && header.value.cid == cid
    && header.value.size.Some? && 0 <= header.value.size.value <= MAX_PEER_UPLOAD_BYTES
  }

  /** The payload a whole byte stream carries: all that follows the header line, if the header declares just that. */
  function Payload(all: bytes, cid: string, parse: bytes -> Option<Header>): Option<bytes> {
    var n := LineEnd(all);
    if n == |all| then None
    else
      var header := parse(all[..n]);
      var rest := all[n + 1..];
      if Accepted(header, cid) && |rest| == header.value.size.value then Some(rest) else None
  }

  /** Some arrival leaves more than 2048 bytes buffered without a newline. */
  ghost predicate HeaderOverflows(chunks: seq<bytes>) {
    exists k :: 0 <= k <= |chunks| && Overflow(Flatten(chunks[..k]))
  }

  predicate Overflow(buffered: bytes) {
    |buffered| > MAX_HEADER_BYTES && LineEnd(buffered) == |buffered|
  }

  ghost function Fetched(chunks: seq<bytes>, cid: string, parse: bytes -> Option<Header>): Option<bytes> {
    if HeaderOverflows(chunks) then None else Payload(Flatten(chunks), cid, parse)
  }

  // ---------------------------------------------------------------- chunks and prefixes

  lemma FlattenNext(chunks: seq<bytes>, i: nat)
    requires i < |chunks|
    ensures Flatten(chunks[..i + 1]) == Flatten(chunks[..i]) + chunks[i]
  {
    assert chunks[..i + 1][..i] == chunks[..i];
  }

  lemma {:induction false} FlattenPrefix(chunks: seq<bytes>, i: nat)
    requires i <= |chunks|
    ensures Flatten(chunks[..i]) <= Flatten(chunks)
    decreases |chunks| - i
  {
    if i == |chunks| {
      assert chunks[..i] == chunks;
    } else {
      FlattenNext(chunks, i);
      FlattenPrefix(chunks, i + 1);
    }
  }

  /** A newline found in a prefix is the first one of the whole. */
  lemma LineEndOfPrefix(p: bytes, s: bytes)
    requires p <= s
    ensures LineEnd(p) < |p| ==> LineEnd(s) == LineEnd(p)
    ensures LineEnd(p) == |p| ==> LineEnd(s) >= |p|
  {
    assert forall i | 0 <= i < |p| :: p[i] == s[i];
  }

  /** A header line of at most 2048 bytes never overflows, however the stream is cut. */
  lemma ShortHeaderFits(chunks: seq<bytes>)
    requires LineEnd(Flatten(chunks)) <= MAX_HEADER_BYTES && LineEnd(Flatten(chunks)) < |Flatten(chunks)|
    ensures !HeaderOverflows(chunks)
  {
    forall k | 0 <= k <= |chunks|
      ensures !Overflow(Flatten(chunks[..k]))
    {
      FlattenPrefix(chunks, k);
      LineEndOfPrefix(Flatten(chunks[..k]), Flatten(chunks));
    }
  }

  // ---------------------------------------------------------------- the reader

  lemma FlattenAppend(chunks: seq<bytes>, chunk: bytes)
    ensures Flatten(chunks + [chunk]) == Flatten(chunks) + chunk
  {
    assert (chunks + [chunk])[..|chunks|] == chunks;
  }

  /** The copying loop at the end of `fetchUploadFromPeer`. */
  method Concatenate(chunks: seq<bytes>) returns (output: bytes)
    ensures output == Flatten(chunks)
  {
    output := [];
    for k := 0 to |chunks|
      invariant output == Flatten(chunks[..k])
    {
      FlattenNext(chunks, k);
      output := output + chunks[k];
    }
    assert chunks[..|chunks|] == chunks;
  }

  /** What an arrival before the header has been accepted leads to. */
  datatype Arrival = NoHeaderYet(buffer: bytes) | Refused | HeaderRead(size: int, payload: bytes)

  /** The part of the reading loop that looks for the header. */
  method ReadHeader(ghost stream: seq<bytes>, ghost i: nat, headerBuffer: bytes, chunk: bytes, cid: string,
                    parse: bytes -> Option<Header>)
    returns (arrival: Arrival)
    requires i < |stream| && chunk == stream[i] && Buffering(stream, i, headerBuffer)
    ensures match arrival
      case NoHeaderYet(buffer) => Buffering(stream, i + 1, buffer)
      case Refused => Fetched(stream, cid, parse) == None
      case HeaderRead(size, payload) => Receiving(stream, i + 1, cid, parse, Some(size), payload)
  {
    var combined := headerBuffer + chunk;
    var newline := LineEnd(combined);
    if newline == |combined| {
      if |combined| > MAX_HEADER_BYTES {
        HeaderTooLong(stream, i, headerBuffer, cid, parse);
        return Refused;
      }
      BuffersMore(stream, i, headerBuffer);
      return NoHeaderYet(combined);
    }
    var header := parse(combined[..newline]);
    if !Accepted(header, cid) {
      HeaderRejected(stream, i, headerBuffer, cid, parse);
      return Refused;
    }
    HeaderAccepted(stream, i, headerBuffer, cid, parse);
    return HeaderRead(header.value.size.value, combined[newline + 1..]);
  }

  /** `fetchUploadFromPeer`, on the chunks the stream yields. */
  method FetchUploadFromPeer(peerId: string, cid: string, stream: seq<bytes>, parse: bytes -> Option<Header>)
    returns (output: Option<bytes>)
    ensures output == if peerId == "" || cid == "" then None else Fetched(stream, cid, parse)
  {
    if peerId == "" || cid == "" {
      return None;
    }
    var chunks: seq<bytes> := [];
    var headerBuffer: bytes := [];
    var expectedSize: Option<int> := None;
    var receivedSize := 0;
    var responseValid := false;
    var i: nat := 0;
    while i < |stream|
      invariant i <= |stream|
      invariant receivedSize == |Flatten(chunks)|
      invariant !responseValid ==> Buffering(stream, i, headerBuffer) && chunks == []
      invariant responseValid ==> Receiving(stream, i, cid, parse, expectedSize, Flatten(chunks))
    {
      var chunk := stream[i];
      if !responseValid {
        var arrival := ReadHeader(stream, i, headerBuffer, chunk, cid, parse);
        if arrival.Refused? {
          break;
        }
        if arrival.HeaderRead? {
          expectedSize := Some(arrival.size);
          responseValid := true;
          if |arrival.payload| > 0 {
            FlattenAppend(chunks, arrival.payload);
            chunks := chunks + [arrival.payload];
            receivedSize := receivedSize + |arrival.payload|;
          }
          assert Flatten(chunks) == arrival.payload;
          headerBuffer := [];
        } else {
          headerBuffer := arrival.buffer;
        }
        i := i + 1;
        continue;
      }
      receivedSize := receivedSize + |chunk|;
      ReceivesMore(stream, i, cid, parse, expectedSize, Flatten(chunks));
      if receivedSize > expectedSize.value {
        TooMuch(stream, i + 1, cid, parse, expectedSize, Flatten(chunks) + chunk);
        break;
      }
      FlattenAppend(chunks, chunk);
      chunks := chunks + [chunk];
      i := i + 1;
    }
    if i == |stream| {
      StreamEnds(stream, cid, parse, responseValid, headerBuffer, expectedSize, Flatten(chunks));
    }
    if !responseValid || expectedSize.None? || receivedSize != expectedSize.value {
      return None;
    }
    var received := Concatenate(chunks);
    return Some(received);
  }

  /** No newline has arrived and the buffer has not overflowed. */
  ghost predicate Buffering(stream: seq<bytes>, i: nat, headerBuffer: bytes)
    requires i <= |stream|
  {
    && headerBuffer == Flatten(stream[..i])
    && LineEnd(headerBuffer) == |headerBuffer| <= MAX_HEADER_BYTES
    && (forall k | 0 <= k <= i :: !Overflow(Flatten(stream[..k])))
  }

  /** The header was accepted, and `received` is everything that has arrived after it. */
  ghost predicate Receiving(stream: seq<bytes>, i: nat, cid: string, parse: bytes -> Option<Header>,
                            expectedSize: Option<int>, received: bytes)
    requires i <= |stream|
  {
    var soFar := Flatten(stream[..i]);
    var n := LineEnd(soFar);
    && n < |soFar|
    && Accepted(parse(soFar[..n]), cid)
    && expectedSize == parse(soFar[..n]).value.size
    && received == soFar[n + 1..]
    && !HeaderOverflows(stream)
  }

  /** The buffer grows past the limit before a newline arrives. */
  lemma HeaderTooLong(stream: seq<bytes>, i: nat, headerBuffer: bytes, cid: string, parse: bytes -> Option<Header>)
    requires i < |stream| && headerBuffer == Flatten(stream[..i]) && Overflow(headerBuffer + stream[i])
    ensures Fetched(stream, cid, parse) == None
  {
    FlattenNext(stream, i);
    assert Overflow(Flatten(stream[..i + 1]));
  }

  lemma BuffersMore(stream: seq<bytes>, i: nat, headerBuffer: bytes)
    requires i < |stream| && Buffering(stream, i, headerBuffer)
    requires LineEnd(headerBuffer + stream[i]) == |headerBuffer + stream[i]| <= MAX_HEADER_BYTES
    ensures Buffering(stream, i + 1, headerBuffer + stream[i])
  {
    FlattenNext(stream, i);
  }

  lemma HeaderRejected(stream: seq<bytes>, i: nat, headerBuffer: bytes, cid: string, parse: bytes -> Option<Header>)
    requires i < |stream| && headerBuffer == Flatten(stream[..i])
    requires var combined := headerBuffer + stream[i];
      LineEnd(combined) < |combined| && !Accepted(parse(combined[..LineEnd(combined)]), cid)
    ensures Fetched(stream, cid, parse) == None
  {
    FlattenNext(stream, i);
    FlattenPrefix(stream, i + 1);
    var soFar, all := Flatten(stream[..i + 1]), Flatten(stream);
    LineEndOfPrefix(soFar, all);
    assert all[..LineEnd(all)] == soFar[..LineEnd(soFar)];
  }

  lemma HeaderAccepted(stream: seq<bytes>, i: nat, headerBuffer: bytes, cid: string, parse: bytes -> Option<Header>)
    requires i < |stream| && Buffering(stream, i, headerBuffer)
    requires var combined := headerBuffer + stream[i];
      LineEnd(combined) < |combined| && Accepted(parse(combined[..LineEnd(combined)]), cid)
    ensures var combined := headerBuffer + stream[i];
      var n := LineEnd(combined);
      Receiving(stream, i + 1, cid, parse, parse(combined[..n]).value.size, combined[n + 1..])
  {
    FlattenNext(stream, i);
    forall k | 0 <= k <= |stream|
      ensures !Overflow(Flatten(stream[..k]))
    {
      if i < k {
        var upToK := stream[..k];
        FlattenPrefix(upToK, i + 1);
        assert upToK[..i + 1] == stream[..i + 1];
        LineEndOfPrefix(Flatten(stream[..i + 1]), Flatten(upToK));
      }
    }
  }

  /** More has arrived after an accepted header than it declares. */
  lemma TooMuch(stream: seq<bytes>, i: nat, cid: string, parse: bytes -> Option<Header>,
                expectedSize: Option<int>, received: bytes)
    requires i <= |stream| && Receiving(stream, i, cid, parse, expectedSize, received)
    requires |received| > expectedSize.value
    ensures Fetched(stream, cid, parse) == None
  {
    var soFar, all := Flatten(stream[..i]), Flatten(stream);
    FlattenPrefix(stream, i);
    LineEndOfPrefix(soFar, all);
    assert all[..LineEnd(all)] == soFar[..LineEnd(soFar)];
  }

  lemma ReceivesMore(stream: seq<bytes>, i: nat, cid: string, parse: bytes -> Option<Header>,
                     expectedSize: Option<int>, received: bytes)
    requires i < |stream| && Receiving(stream, i, cid, parse, expectedSize, received)
    ensures Receiving(stream, i + 1, cid, parse, expectedSize, received + stream[i])
  {
    var soFar, more := Flatten(stream[..i]), Flatten(stream[..i + 1]);
    FlattenNext(stream, i);
    LineEndOfPrefix(soFar, more);
    assert more[..LineEnd(more)] == soFar[..LineEnd(soFar)];
  }

  lemma StreamEnds(stream: seq<bytes>, cid: string, parse: bytes -> Option<Header>, responseValid: bool,
                   headerBuffer: bytes, expectedSize: Option<int>, received: bytes)
    requires !responseValid ==> Buffering(stream, |stream|, headerBuffer)
    requires responseValid ==> Receiving(stream, |stream|, cid, parse, expectedSize, received)
    ensures Fetched(stream, cid, parse) ==
      if responseValid && |received| == expectedSize.value then Some(received) else None
  {
    assert stream[..|stream|] == stream;
  }

  // ---------------------------------------------------------------- the writer

  /** What is stored beside an object; a record that is no JSON is None. */
  datatype Metadata = Metadata(contentType: Option<string>, filename: Option<string>)

  predicate Unreadable(cid: string, metadata: map<string, Option<Metadata>>) {
    cid != "" && cid in metadata && metadata[cid].None?
  }

  predicate IsHexDigit(c: char) {
    '0' <= c <= '9' || 'a' <= c <= 'f' || 'A' <= c <= 'F'
  }

  /** The content id a request names: sixty-four hexadecimal digits, or nothing. */
  function RequestedCid(cid: Option<string>): string {
    if cid.Some? && |cid.value| == 64 && forall i | 0 <= i < 64 :: IsHexDigit(cid.value[i]) then cid.value else ""
  }

  /** The header for a cid, given the stored objects. */
  function HeaderFor(cid: string, blobs: map<string, bytes>, metadata: map<string, Option<Metadata>>): ResponseHeader {
    if cid != "" && cid in blobs && |blobs[cid]| <= MAX_PEER_UPLOAD_BYTES then
      var m := (if cid in metadata then metadata[cid] else None).GetOr(Metadata(None, None));
      ResponseHeader(true, cid, |blobs[cid]|, m.contentType.GetOr("application/octet-stream"), m.filename.GetOr(cid))
    else ResponseHeader(false, cid, 0, "", "")
  }

  /** Every byte a peer answers with. */
  function Response(cid: string, blobs: map<string, bytes>, metadata: map<string, Option<Metadata>>,
                    encode: ResponseHeader -> bytes): bytes {
    var header := HeaderFor(cid, blobs, metadata);
    encode(header) + [NEWLINE] + (if header.ok && cid in blobs then blobs[cid] else [])
  }

  /** `send`: the data in order, in chunks of at most 64 KiB. */
  method SendInChunks(sent0: seq<bytes>, data: bytes) returns (sent: seq<bytes>)
    ensures Flatten(sent) == Flatten(sent0) + data
    ensures sent0 <= sent
    ensures forall i | |sent0| <= i < |sent| :: 0 < |sent[i]| <= SEND_CHUNK_BYTES
  {
    sent := sent0;
    var offset := 0;
    while offset < |data|
      invariant 0 <= offset
      invariant Flatten(sent) == Flatten(sent0) + data[..if offset < |data| then offset else |data|]
      invariant sent0 <= sent
      invariant forall i | |sent0| <= i < |sent| :: 0 < |sent[i]| <= SEND_CHUNK_BYTES
    {
      var end := if offset + SEND_CHUNK_BYTES < |data| then offset + SEND_CHUNK_BYTES else |data|;
      var chunk := data[offset..end];
      assert (sent + [chunk])[..|sent|] == sent;
      assert data[..end] == data[..offset] + chunk;
      sent := sent + [chunk];
      offset := offset + SEND_CHUNK_BYTES;
    }
    assert data[..|data|] == data;
  }

  /**
   * `handlePeerUploadRequest`, which aborts on a request that is too long or no JSON, and on
   * stored metadata that is no JSON. `parseRequest` gives nothing for no JSON, and otherwise
   * the `cid` of the request if that is a string.
   */
  method HandlePeerUploadRequest(request: seq<bytes>, blobs: map<string, bytes>, metadata: map<string, Option<Metadata>>,
                                 parseRequest: bytes -> Option<Option<string>>, encode: ResponseHeader -> bytes)
    returns (aborted: bool, sent: seq<bytes>)
    ensures aborted <==>
      || |Flatten(request)| > MAX_REQUEST_BYTES
      || parseRequest(Flatten(request)).None?
      || Unreadable(RequestedCid(parseRequest(Flatten(request)).value), metadata)
    ensures aborted ==> sent == []
    ensures !aborted ==>
      Flatten(sent) == Response(RequestedCid(parseRequest(Flatten(request)).value), blobs, metadata, encode)
    ensures Answer(Flatten(request), blobs, metadata, parseRequest, encode) == if aborted then None else Some(Flatten(sent))
    ensures forall i | 0 <= i < |sent| :: 0 < |sent[i]| <= SEND_CHUNK_BYTES
  {
    sent := [];
    var requestChunks: seq<bytes> := [];
    var requestSize := 0;
    for i := 0 to |request|
      invariant requestChunks == request[..i]
      invariant requestSize == |Flatten(request[..i])| <= MAX_REQUEST_BYTES
    {
      FlattenNext(request, i);
      requestSize := requestSize + |request[i]|;
      if requestSize > MAX_REQUEST_BYTES {
        FlattenPrefix(request, i + 1);
        return true, [];
      }
      requestChunks := requestChunks + [request[i]];
    }
    assert request[..|request|] == request;
    var parsed := parseRequest(Flatten(requestChunks));
    if parsed.None? {
      return true, [];
    }
    var cid := RequestedCid(parsed.value);
    if Unreadable(cid, metadata) {
      return true, [];
    }
    var header := HeaderFor(cid, blobs, metadata);
    sent := SendInChunks([], encode(header) + [NEWLINE]);
    if header.ok && cid in blobs {
      sent := SendInChunks(sent, blobs[cid]);
    }
    aborted := false;
  }

  // ---------------------------------------------------------------- what a stream carries

  /** A line says that exactly this payload follows: it is accepted, for this object, of its size, at most 50 MiB. */
  ghost predicate Carries(all: bytes, line: bytes, rest: bytes, cid: string, parse: bytes -> Option<Header>) {
    && all == line + [NEWLINE] + rest && NEWLINE !in line
    && |rest| <= 52_428_800 && parse(line) == Some(Header(true, cid, Some(|rest|)))
  }

  /** A stream carries a payload exactly if its first line announces all that follows as this object. */
  lemma PayloadIff(all: bytes, rest: bytes, cid: string, parse: bytes -> Option<Header>)
    ensures Payload(all, cid, parse) == Some(rest) <==> exists line :: Carries(all, line, rest, cid, parse)
  {
    var n := LineEnd(all);
    if Payload(all, cid, parse) == Some(rest) {
      assert all == all[..n] + [NEWLINE] + rest;
      assert Carries(all, all[..n], rest, cid, parse);
    }
    if exists line :: Carries(all, line, rest, cid, parse) {
      var line :| Carries(all, line, rest, cid, parse);
      LineEndOfResponse(line, rest);
      assert all[..n] == line && all[n + 1..] == rest;
    }
  }

  // ---------------------------------------------------------------- what the writer answers

  /** A content id is asked for by sixty-four hexadecimal digits, in either case, and by nothing else. */
  lemma RequestedCidIs(cid: Option<string>)
    ensures RequestedCid(cid) ==
      if cid.Some? && |cid.value| == 64 && (forall c | c in cid.value :: c in "0123456789abcdefABCDEF") then cid.value else ""
  {
    forall c
      ensures IsHexDigit(c) <==> c in "0123456789abcdefABCDEF"
    {
      HexDigits(c);
    }
    if cid.Some? && |cid.value| == 64 {
      assert forall i | 0 <= i < 64 :: cid.value[i] in cid.value;
    }
  }

  lemma HexDigits(c: char)
    ensures IsHexDigit(c) <==> c in "0123456789abcdefABCDEF"
  {
    var digits := "0123456789abcdefABCDEF";
    if '0' <= c <= '9' {
      assert digits[c as int - '0' as int] == c;
    } else if 'a' <= c <= 'f' {
      assert digits[10 + c as int - 'a' as int] == c;
    } else if 'A' <= c <= 'F' {
      assert digits[16 + c as int - 'A' as int] == c;
    }
  }

  /** What the header of a stored object says of it: what is stored beside it, or defaults. */
  lemma HeaderDescribes(cid: string, blobs: map<string, bytes>, metadata: map<string, Option<Metadata>>)
    ensures var h := HeaderFor(cid, blobs, metadata);
      && h.cid == cid
      && (h.ok <==> cid != "" && cid in blobs && |blobs[cid]| <= 52_428_800)
      && h.size == (if h.ok then |blobs[cid]| else 0)
      && (h.ok && cid in metadata && metadata[cid].Some? && metadata[cid].value.contentType.Some? ==>
            h.contentType == metadata[cid].value.contentType.value)
      && (h.ok && cid in metadata && metadata[cid].Some? && metadata[cid].value.filename.Some? ==>
            h.filename == metadata[cid].value.filename.value)
      && (h.ok && cid !in metadata ==> h.contentType == "application/octet-stream" && h.filename == cid)
  {
  }

  /** Everything a peer answers to the bytes of a request; nothing if it aborts. */
  function Answer(request: bytes, blobs: map<string, bytes>, metadata: map<string, Option<Metadata>>,
                  parseRequest: bytes -> Option<Option<string>>, encode: ResponseHeader -> bytes): Option<bytes> {
    if |request| > MAX_REQUEST_BYTES || parseRequest(request).None? then None
    else
      var cid := RequestedCid(parseRequest(request).value);
      if Unreadable(cid, metadata) then None else Some(Response(cid, blobs, metadata, encode))
  }

  // ---------------------------------------------------------------- both together

  /** JSON keeps what the reader looks at in the headers the writer makes, and never writes a newline. */
  ghost predicate Lossless(encode: ResponseHeader -> bytes, parse: bytes -> Option<Header>) {
    forall h: ResponseHeader | h.size <= MAX_PEER_UPLOAD_BYTES ::
      parse(encode(h)) == Some(Header(h.ok, h.cid, Some(h.size))) && NEWLINE !in encode(h)
  }

  lemma LineEndOfResponse(line: bytes, rest: bytes)
    requires NEWLINE !in line
    ensures LineEnd(line + [NEWLINE] + rest) == |line|
  {
    var s := line + [NEWLINE] + rest;
    assert s[|line|] == NEWLINE;
    assert forall i | 0 <= i < |line| :: s[i] == line[i];
  }

  /**
   * Round trip: whatever chunks a peer's answer arrives in, a header line of at most 2048
   * bytes lets the reader return exactly the stored object; an object that is missing, or
   * too large to send, comes back as nothing.
   */
  lemma UploadRoundTrip(chunks: seq<bytes>, cid: string, blobs: map<string, bytes>, metadata: map<string, Option<Metadata>>,
                        encode: ResponseHeader -> bytes, parse: bytes -> Option<Header>)
    requires Lossless(encode, parse) && cid != ""
    requires Flatten(chunks) == Response(cid, blobs, metadata, encode)
    requires |encode(HeaderFor(cid, blobs, metadata))| <= MAX_HEADER_BYTES
    ensures Fetched(chunks, cid, parse) ==
      if cid in blobs && |blobs[cid]| <= MAX_PEER_UPLOAD_BYTES then Some(blobs[cid]) else None
  {
    var header := HeaderFor(cid, blobs, metadata);
    var line := encode(header);
    var rest := if header.ok && cid in blobs then blobs[cid] else [];
    LineEndOfResponse(line, rest);
    ShortHeaderFits(chunks);
    var all := Flatten(chunks);
    assert all == line + [NEWLINE] + rest;
    assert all[..|line|] == line && all[|line| + 1..] == rest;
  }

  /**
   * The whole exchange: asked for sixty-four hexadecimal digits, in whatever chunks request
   * and answer arrive, the reader gets exactly the object stored under them, or nothing if
   * it is missing or too large. The other end aborts only if it cannot read what is stored
   * beside the object.
   */
  lemma ExchangeRoundTrip(cid: string, request: bytes, chunks: seq<bytes>,
                          blobs: map<string, bytes>, metadata: map<string, Option<Metadata>>,
                          parseRequest: bytes -> Option<Option<string>>,
                          encode: ResponseHeader -> bytes, parse: bytes -> Option<Header>)
    requires |cid| == 64 && forall c | c in cid :: c in "0123456789abcdefABCDEF"
    requires parseRequest(request) == Some(Some(cid)) && |request| <= 2048
    requires Lossless(encode, parse)
    ensures var answer := Answer(request, blobs, metadata, parseRequest, encode);
      && (answer == None <==> cid in metadata && metadata[cid].None?)
      && (answer == Some(Flatten(chunks)) && |encode(HeaderFor(cid, blobs, metadata))| <= 2048 ==>
            Fetched(chunks, cid, parse) ==
            if cid in blobs && |blobs[cid]| <= 52_428_800 then Some(blobs[cid]) else None)
  {
    RequestedCidIs(Some(cid));
    var answer := Answer(request, blobs, metadata, parseRequest, encode);
    if answer == Some(Flatten(chunks)) && |encode(HeaderFor(cid, blobs, metadata))| <= 2048 {
      UploadRoundTrip(chunks, cid, blobs, metadata, encode, parse);
    }
  }

  /** Asked for anything else, it answers that it has nothing. */
  lemma OtherRequestsGetNothing(request: bytes, blobs: map<string, bytes>, metadata: map<string, Option<Metadata>>,
                                parseRequest: bytes -> Option<Option<string>>, encode: ResponseHeader -> bytes, asked: string)
    requires parseRequest(request) == Some(Some(asked)) && |request| <= 2048
    requires |asked| != 64 || exists c | c in asked :: c !in "0123456789abcdefABCDEF"
    ensures Answer(request, blobs, metadata, parseRequest, encode) ==
            Some(encode(ResponseHeader(false, "", 0, "", "")) + [NEWLINE])
  {
    RequestedCidIs(Some(asked));
    var line := encode(ResponseHeader(false, "", 0, "", "")) + [NEWLINE];
    assert line + [] == line;
  }

  /** A stream that carries a payload carries none when anything is cut off its end or added to it. */
  lemma NothingFromTruncatedOrExtended(all: bytes, other: bytes, cid: string, parse: bytes -> Option<Header>)
    requires Payload(all, cid, parse).Some?
    requires other < all || all < other
    ensures Payload(other, cid, parse) == None
  {
    if other <= all {
      LineEndOfPrefix(other, all);
      if LineEnd(other) < |other| {
        assert other[..LineEnd(other)] == all[..LineEnd(all)];
      }
    } else {
      LineEndOfPrefix(all, other);
      assert other[..LineEnd(other)] == all[..LineEnd(all)];
    }
  }

  /**
   * Exactly when the result depends on nothing but the bytes: every chunking of a stream
   * gives its payload iff there is none or the header line is at most 2048 bytes long.
   */
  lemma ChunkingIrrelevantIff(all: bytes, cid: string, parse: bytes -> Option<Header>)
    ensures (forall chunks | Flatten(chunks) == all :: Fetched(chunks, cid, parse) == Payload(all, cid, parse))
      <==> Payload(all, cid, parse) == None || LineEnd(all) <= MAX_HEADER_BYTES
  {
    if Payload(all, cid, parse).Some? {
      if LineEnd(all) <= MAX_HEADER_BYTES {
        forall chunks | Flatten(chunks) == all
          ensures Fetched(chunks, cid, parse) == Payload(all, cid, parse)
        {
          ShortHeaderFits(chunks);
        }
      } else {
        var chunks := CutInHeader(all, cid, parse);
        assert Fetched(chunks, cid, parse) == None;
      }
    }
  }

  /** A header line that is too long can be cut where it overflows. */
  lemma CutInHeader(all: bytes, cid: string, parse: bytes -> Option<Header>) returns (chunks: seq<bytes>)
    requires LineEnd(all) > MAX_HEADER_BYTES
    ensures Flatten(chunks) == all && Fetched(chunks, cid, parse) == None
  {
    var cut := MAX_HEADER_BYTES + 1;
    chunks := [all[..cut], all[cut..]];
    assert chunks == [] + [all[..cut]] + [all[cut..]];
    FlattenAppend([], all[..cut]);
    FlattenAppend([all[..cut]], all[cut..]);
    assert [] + [all[..cut]] == [all[..cut]];
    assert chunks[..1] == [all[..cut]];
    LineEndOfPrefix(all[..cut], all);
    assert Overflow(Flatten(chunks[..1]));
  }
}
