/** Signing and verifying requests (plugins/hmacauth/hmacauth.go:532-710 and
    plugins/hmacauth/signer.go:50-150).  SHA-256 and HMAC are parameters. */
module HmacAuth {
  import opened Prelude
  import opened ByteStrings
  import opened CanonicalRequest
  import opened NonceStore
  import opened ReplayWindow

  /** The keyed digest: key, message. */
  type Mac = (Bytes, Bytes) -> Bytes

  const MAC_SIZE: nat := 32
  const MAX_SAFE_TIMESTAMP: int := 0x20_0000_0000_0000
  const COLON: byte := 58

  datatype Client = Client(id: Bytes, secret: Bytes, secrets: seq<Bytes>)

  predicate HasKey(c: Client, key: Bytes) {
    key != [] && (key == c.secret || key in c.secrets)
  }

  /** The four authentication headers. */
  datatype Headers = Headers(clientID: Bytes, timestamp: Bytes, nonce: Bytes, signature: Bytes)

  /** What arrives: the headers and the parts of the request that are signed. */
  datatype Message = Message(headers: Headers, verb: Bytes, path: Bytes, query: Query, body: Bytes)

  datatype Outcome =
    | Accept(client: Client)
    | Unauthorized
    | ClockSkew(drift: nat)
    | SignatureInvalid
    | ReplayDetected

  type Validator = Bytes -> Option<Client>

  datatype Config = Config(window: Window, sha: Digest, mac: Mac, validator: Validator)

  function RequestOf(m: Message, ts: int): Request {
    Request(m.verb, m.path, m.query, m.body, ts, m.headers.nonce)
  }

  function NonceKey(clientID: Bytes, nonce: Bytes): Bytes {
    [110, 111, 110, 99, 101, 58] + (clientID + [COLON] + nonce)
  }

  // ---- the decision before the nonce store ----

  ghost predicate Signs(c: Config, client: Client, canonical: Bytes, received: Bytes) {
    exists key :: HasKey(client, key) && c.mac(key, canonical) == received
  }

  /** Everything verify decides before it asks the nonce store. */
  ghost function Judge(c: Config, now: Time, m: Message): Outcome {
    var h := m.headers;
    if h.clientID == [] || h.timestamp == [] || h.nonce == [] || h.signature == [] then Unauthorized
    else
      var ts := ParseInt(h.timestamp);
      if ts.None? || ts.value <= 0 || ts.value > MAX_SAFE_TIMESTAMP then Unauthorized
      else if Drift(now, ts.value) > c.window.skew then ClockSkew(Drift(now, ts.value))
      else
        var sig := FromHex(h.signature);
        if sig.None? || |sig.value| != MAC_SIZE then SignatureInvalid
        else
          var client := c.validator(h.clientID);
          if client.None? || client.value.id == [] || (client.value.secret == [] && client.value.secrets == [])
          then Unauthorized
          else if !Signs(c, client.value, Canonical(c.sha, RequestOf(m, ts.value)), sig.value) then SignatureInvalid
          else Accept(client.value)
  }

  /** verify.  The clock is read once for the skew check, at `now`, and once by the store, at `setAt`. */
  method Verify(c: Config, store: MemoryNonceStore?, cancelled: bool, now: Time, setAt: Time, m: Message)
    returns (r: Outcome)
    modifies store
    ensures !Judge(c, now, m).Accept? ==> r == Judge(c, now, m)
    ensures Judge(c, now, m).Accept? ==> r in {Judge(c, now, m), Unauthorized, ReplayDetected}
    ensures store == null ==> r == Judge(c, now, m)
    ensures store != null && (cancelled || !Judge(c, now, m).Accept?) ==>
              store.entries == old(store.entries) && !r.Accept?
    ensures store != null && !cancelled && Judge(c, now, m).Accept? ==>
              && (r.Accept? || r.ReplayDetected?)
              && Sets(old(store.entries), store.max, NonceKey(m.headers.clientID, m.headers.nonce), c.window.ttl,
                      setAt, r.Accept?, store.entries)
  {
    var h := m.headers;
    if h.clientID == [] || h.timestamp == [] || h.nonce == [] || h.signature == [] {
      return Unauthorized;
    }
    var parsed := ParseInt(h.timestamp);
    if parsed.None? || parsed.value <= 0 {
      return Unauthorized;
    }
    var ts := parsed.value;
    if ts > MAX_SAFE_TIMESTAMP {
      return Unauthorized;
    }
    if Drift(now, ts) > c.window.skew {
      return ClockSkew(Drift(now, ts));
    }
    var received := FromHex(h.signature);
    if received.None? || |received.value| != MAC_SIZE {
      return SignatureInvalid;
    }
    var found := c.validator(h.clientID);
    if found.None? {
      return Unauthorized;
    }
    var client := found.value;
    if client.id == [] || (|client.secret| == 0 && |client.secrets| == 0) {
      return Unauthorized;
    }
    var canonical := CanonicalRequest.CanonicalRequest(c.sha, RequestOf(m, ts));
    var matched := CompareAllSecrets(c, client, canonical, received.value);
    if !matched {
      return SignatureInvalid;
    }
    if store != null {
      var isNew := store.SetNX(cancelled, NonceKey(h.clientID, h.nonce), c.window.ttl, setAt);
      if isNew.None? {
        return Unauthorized;
      }
      if !isNew.value {
        return ReplayDetected;
      }
    }
    return Accept(client);
  }

  /** compareAllSecrets: every candidate is tried, and empty ones never match. */
  method CompareAllSecrets(c: Config, client: Client, canonical: Bytes, received: Bytes) returns (matched: bool)
    ensures matched <==> Signs(c, client, canonical, received)
  {
    matched := false;
    if |client.secret| > 0 {
      if c.mac(client.secret, canonical) == received {
        matched := true;
        assert HasKey(client, client.secret);
      }
    }
    for i := 0 to |client.secrets|
      invariant matched <==> exists key :: key != [] && (key == client.secret || key in client.secrets[..i])
                                           && c.mac(key, canonical) == received
    {
      var s := client.secrets[i];
      assert client.secrets[..i + 1] == client.secrets[..i] + [s];
      if |s| == 0 {
        continue;
      }
      if c.mac(s, canonical) == received {
        matched := true;
        assert s in client.secrets[..i + 1];
      }
    }
    assert client.secrets[..|client.secrets|] == client.secrets;
    if matched {
      var key :| key != [] && (key == client.secret || key in client.secrets) && c.mac(key, canonical) == received;
      assert HasKey(client, key);
    }
  }

  /** A message gets past the decision exactly when a key of its client signs it, its timestamp is
      within the skew and nothing is missing. */
  ghost predicate Genuine(c: Config, now: Time, m: Message, client: Client, ts: int, key: Bytes) {
    && m.headers.clientID != [] && m.headers.nonce != []
    && ParseInt(m.headers.timestamp) == Some(ts) && 0 < ts <= MAX_SAFE_TIMESTAMP && Drift(now, ts) <= c.window.skew
    && c.validator(m.headers.clientID) == Some(client) && client.id != [] && HasKey(client, key)
    && var mac := c.mac(key, Canonical(c.sha, RequestOf(m, ts)));
       |mac| == MAC_SIZE && FromHex(m.headers.signature) == Some(mac)
  }

  lemma AcceptedIsGenuine(c: Config, now: Time, m: Message, client: Client)
    ensures Judge(c, now, m) == Accept(client) <==> exists ts, key :: Genuine(c, now, m, client, ts, key)
  {
    if Judge(c, now, m) == Accept(client) {
      var ts, key := SigningKey(c, now, m, client);
    }
    if ts, key :| Genuine(c, now, m, client, ts, key) {
      GenuineIsAccepted(c, now, m, client, ts, key);
    }
  }

  lemma SigningKey(c: Config, now: Time, m: Message, client: Client) returns (ts: int, key: Bytes)
    requires Judge(c, now, m) == Accept(client)
    ensures Genuine(c, now, m, client, ts, key)
  {
    ts := ParseInt(m.headers.timestamp).value;
    var canonical := Canonical(c.sha, RequestOf(m, ts));
    key :| HasKey(client, key) && c.mac(key, canonical) == FromHex(m.headers.signature).value;
  }

  lemma GenuineIsAccepted(c: Config, now: Time, m: Message, client: Client, ts: int, key: Bytes)
    requires Genuine(c, now, m, client, ts, key)
    ensures Judge(c, now, m) == Accept(client)
  {
    var canonical := Canonical(c.sha, RequestOf(m, ts));
    assert Signs(c, client, canonical, c.mac(key, canonical));
    assert FromHex([]) == Some([]);
    assert ParseInt([]) == None;
  }

  // ---- reading the body ----

  datatype BodyRead = Got(body: Bytes) | TooLarge | ReadError

  datatype End = More | Eof | Failed

  /** One Read call: the bytes it delivered and how it ended. */
  datatype Chunk = Chunk(data: Bytes, end: End)

  /** What the first `n` reads deliver. */
  function Delivered(chunks: seq<Chunk>, n: nat): Bytes
    requires n <= |chunks|
  {
    if n == 0 then [] else Delivered(chunks, n - 1) + chunks[n - 1].data
  }

  /** The reads up to the n-th all asked to go on and stayed within the limit. */
  ghost predicate GoesOn(chunks: seq<Chunk>, n: nat, cap: nat) {
    n <= |chunks| && forall i :: 0 <= i < n ==> chunks[i].end == More && |Delivered(chunks, i + 1)| <= cap
  }

  lemma GoesOnMore(chunks: seq<Chunk>, n: nat, cap: nat)
    requires GoesOn(chunks, n, cap) && n < |chunks| && chunks[n].end == More && |Delivered(chunks, n + 1)| <= cap
    ensures GoesOn(chunks, n + 1, cap)
  {
    forall i | 0 <= i < n + 1
      ensures chunks[i].end == More && |Delivered(chunks, i + 1)| <= cap
    {
    }
  }

  /** The n-th read is the one at which reading stops. */
  ghost predicate StopsAt(chunks: seq<Chunk>, n: nat, cap: nat) {
    n < |chunks| && GoesOn(chunks, n, cap) && (chunks[n].end != More || |Delivered(chunks, n + 1)| > cap)
  }

  /** What reading that stops there yields. */
  function YieldAt(chunks: seq<Chunk>, n: nat, cap: nat): BodyRead
    requires n < |chunks|
  {
    if |Delivered(chunks, n + 1)| > cap then TooLarge
    else if chunks[n].end == Eof then Got(Delivered(chunks, n + 1))
    else ReadError
  }

  lemma GoesOnBefore(chunks: seq<Chunk>, n: nat, n': nat, cap: nat)
    requires GoesOn(chunks, n', cap) && n < |chunks|
    ensures n < n' ==> chunks[n].end == More && |Delivered(chunks, n + 1)| <= cap
  {
  }

  /** There is only one such read. */
  lemma StopsOnce(chunks: seq<Chunk>, n: nat, n': nat, cap: nat)
    requires StopsAt(chunks, n, cap) && StopsAt(chunks, n', cap)
    ensures n == n'
  {
    GoesOnBefore(chunks, n, n', cap);
    GoesOnBefore(chunks, n', n, cap);
  }

  /** readBodyStdlib on a body that yields the given reads (a body that ends without saying so is
      not modelled: the last read is not More). */
  method ReadBody(chunks: seq<Chunk>, cap: nat) returns (r: BodyRead)
    requires chunks != [] && chunks[|chunks| - 1].end != More
    ensures exists n :: StopsAt(chunks, n, cap) && r == YieldAt(chunks, n, cap)
  {
    var buf: Bytes := [];
    var i := 0;
    while true
      invariant 0 <= i < |chunks| && GoesOn(chunks, i, cap)
      invariant buf == Delivered(chunks, i) && |buf| <= cap
      decreases |chunks| - i
    {
      var chunk := chunks[i];
      if |chunk.data| > 0 {
        buf := buf + chunk.data;
        if |buf| > cap {
          assert StopsAt(chunks, i, cap);
          return TooLarge;
        }
      }
      assert buf == Delivered(chunks, i + 1);
      if chunk.end == Eof {
        assert StopsAt(chunks, i, cap);
        return Got(buf);
      }
      if chunk.end == Failed {
        assert StopsAt(chunks, i, cap);
        return ReadError;
      }
      GoesOnMore(chunks, i, cap);
      i := i + 1;
    }
  }

  // ---- signing ----

  /** The body of an outgoing request: none, one that can be read again, one whose second copy
      cannot be had or read, or one that can be read only once. */
  datatype Outgoing = NoBody | Replayable(data: Bytes) | Unreadable | OneShot(data: Bytes)

  /** What the server will read. */
  function SentBody(body: Outgoing): Bytes {
    match body
    case NoBody => []
    case Replayable(data) => data
    case Unreadable => []
    case OneShot(data) => data
  }

  /** resolveSignBody: unless the caller says otherwise, what is signed is what is sent. */
  function ResolveSignBody(supplied: Option<Bytes>, body: Outgoing): (r: Option<Bytes>)
    ensures supplied.None? && r.Some? ==> r.value == SentBody(body)
    ensures r.None? <==> supplied.None? && (body.Unreadable? || body.OneShot?)
  {
    if supplied.Some? then supplied
    else
      match body
      case NoBody => Some([])
      case Replayable(data) => Some(data)
      case Unreadable => None
      case OneShot(_) => None
  }

  ghost predicate CanSign(client: Client, supplied: Option<Bytes>, body: Outgoing, nonce: Bytes,
                          random: Option<Bytes>)
  {
    && client.id != [] && (exists key :: HasKey(client, key))
    && (nonce != [] || random.Some?) && ResolveSignBody(supplied, body).Some?
  }

  /** The headers carry a signature of the request under one of the client's keys. */
  ghost predicate SignedBy(sha: Digest, mac: Mac, client: Client, r: Request, h: Headers) {
    && h.clientID == client.id && h.timestamp == FormatInt(r.timestamp) && h.nonce == r.nonce
    && exists key :: HasKey(client, key) && h.signature == LowerHex(mac(key, Canonical(sha, r)))
  }

  /** signWithNonce; `random` is what the nonce source yields, None when it fails. */
  method Sign(sha: Digest, mac: Mac, client: Client, verb: Bytes, path: Bytes, query: Query,
              supplied: Option<Bytes>, body: Outgoing, nonce: Bytes, random: Option<Bytes>, now: Time)
    returns (h: Option<Headers>)
    ensures h.Some? <==> CanSign(client, supplied, body, nonce, random)
    ensures h.Some? ==> SignedBy(sha, mac, client,
      Request(verb, path, query, ResolveSignBody(supplied, body).value, Unix(now),
              if nonce == [] then random.value else nonce), h.value)
  {
    if client.id == [] {
      return None;
    }
    var secret := ChooseSecret(client);
    if |secret| == 0 {
      return None;
    }
    assert HasKey(client, secret);
    var chosen := nonce;
    if chosen == [] {
      if random.None? {
        return None;
      }
      chosen := random.value;
    }
    var hashBody := ResolveSignBody(supplied, body);
    if hashBody.None? {
      return None;
    }
    var ts := Unix(now);
    var signed := SignRequest(sha, mac, client, secret, Request(verb, path, query, hashBody.value, ts, chosen));
    return Some(signed);
  }

  method SignRequest(sha: Digest, mac: Mac, client: Client, secret: Bytes, r: Request) returns (h: Headers)
    requires HasKey(client, secret)
    ensures SignedBy(sha, mac, client, r, h)
  {
    var canonical := CanonicalRequest.CanonicalRequest(sha, r);
    return Headers(client.id, FormatInt(r.timestamp), r.nonce, LowerHex(mac(secret, canonical)));
  }

  predicate FirstInUse(secrets: seq<Bytes>, i: int) {
    0 <= i < |secrets| && secrets[i] != [] && forall j :: 0 <= j < i ==> secrets[j] == []
  }

  /** The primary secret, or the first rotation slot in use. */
  method ChooseSecret(client: Client) returns (secret: Bytes)
    ensures client.secret != [] ==> secret == client.secret
    ensures client.secret == [] && secret != [] ==>
              exists i :: FirstInUse(client.secrets, i) && secret == client.secrets[i]
    ensures secret == [] ==> forall key :: !HasKey(client, key)
  {
    secret := client.secret;
    if |secret| == 0 {
      for i := 0 to |client.secrets|
        invariant secret == [] && forall j :: 0 <= j < i ==> client.secrets[j] == []
      {
        if |client.secrets[i]| > 0 {
          assert FirstInUse(client.secrets, i);
          return client.secrets[i];
        }
      }
    }
  }

  // ---- sign and verify ----

  /** What was signed is accepted by a server that knows the client, as long as the clocks agree
      within the skew. */
  lemma SignedIsAccepted(c: Config, client: Client, r: Request, h: Headers, now: Time)
    requires SignedBy(c.sha, c.mac, client, r, h) && client.id != [] && r.nonce != []
    requires 0 < r.timestamp <= MAX_SAFE_TIMESTAMP && Drift(now, r.timestamp) <= c.window.skew
    requires c.validator(client.id) == Some(client)
    requires forall key, text :: |c.mac(key, text)| == MAC_SIZE
    ensures Judge(c, now, Message(h, r.verb, r.path, r.query, r.body)) == Accept(client)
  {
    var m := Message(h, r.verb, r.path, r.query, r.body);
    ParseFormat(r.timestamp);
    assert RequestOf(m, r.timestamp) == r;
    var key :| HasKey(client, key) && h.signature == LowerHex(c.mac(key, Canonical(c.sha, r)));
    HexRoundTrip(c.mac(key, Canonical(c.sha, r)));
    GenuineIsAccepted(c, now, m, client, r.timestamp, key);
  }

  /** Two different texts with one digest, each under a key of its client. */
  ghost predicate Collides(mac: Mac, signer: Client, text: Bytes, sender: Client, text': Bytes) {
    && text != text'
    && exists key, key' :: HasKey(signer, key) && HasKey(sender, key') && mac(key, text) == mac(key', text')
  }

  /** A signature vouches for one request only: whatever is accepted under it agrees with what was
      signed in method, path, query pairs, body digest, timestamp and nonce, unless the canonical
      forms of these two requests are a collision of the digest. */
  lemma AcceptedIsWhatWasSigned(c: Config, client: Client, r: Request, h: Headers, now: Time, m: Message,
                                sender: Client)
    requires SignedBy(c.sha, c.mac, client, r, h) && m.headers.signature == h.signature
    requires NEWLINE !in r.verb && NEWLINE !in r.nonce && NEWLINE !in m.verb && NEWLINE !in m.headers.nonce
    requires Judge(c, now, m) == Accept(sender)
    ensures ParseInt(m.headers.timestamp).Some?
    ensures var accepted := RequestOf(m, ParseInt(m.headers.timestamp).value);
            || (accepted.timestamp == r.timestamp && SameSigned(c.sha, r, accepted))
            || Collides(c.mac, client, Canonical(c.sha, r), sender, Canonical(c.sha, accepted))
  {
    var ts, key := SigningKey(c, now, m, sender);
    var signer :| HasKey(client, signer) && h.signature == LowerHex(c.mac(signer, Canonical(c.sha, r)));
    HexRoundTrip(c.mac(signer, Canonical(c.sha, r)));
    Unambiguous(c.sha, r, RequestOf(m, ts));
  }

  // ---- nonce keys ----

  /** Clients do not share nonces as long as no client identifier contains a colon. */
  lemma NonceKeysAreSeparate(c: Bytes, n: Bytes, c': Bytes, n': Bytes)
    requires COLON !in c && COLON !in c'
    ensures NonceKey(c, n) == NonceKey(c', n') <==> c == c' && n == n'
  {
    assert NonceKey(c, n)[6..] == c + [COLON] + n;
    assert NonceKey(c', n')[6..] == c' + [COLON] + n';
    if NonceKey(c, n) == NonceKey(c', n') {
      SplitFirst(c, n, c', n', COLON);
    }
  }

  /** With a colon in one they do: the nonce of one client is then a used nonce of another. */
  lemma ColonSharesNonces(a: Bytes, b: Bytes, n: Bytes)
    ensures NonceKey(a + [COLON] + b, n) == NonceKey(a, b + [COLON] + n)
  {
    Associate(a + [COLON], b, COLON, n);
  }

  /** Some nonces of the one client are nonces of the other; verify asks for nonces that are not empty. */
  ghost predicate ShareNonces(c: Bytes, c': Bytes) {
    exists n, n' :: n != [] && n' != [] && NonceKey(c, n) == NonceKey(c', n')
  }

  /** The first identifier, a colon and more. */
  predicate Extends(c: Bytes, c': Bytes) {
    |c| < |c'| && c'[..|c|] == c && c'[|c|] == COLON
  }

  /** Two clients share nonces exactly when they are one, or one identifier is the other followed by
      a colon and more. */
  lemma ShareNoncesIff(c: Bytes, c': Bytes)
    ensures ShareNonces(c, c') <==> c == c' || Extends(c, c') || Extends(c', c)
  {
    if n, n' :| n != [] && n' != [] && NonceKey(c, n) == NonceKey(c', n') {
      if |c| <= |c'| {
        SharedKeyExtends(c, n, c', n');
      } else {
        SharedKeyExtends(c', n', c, n);
      }
    }
    if c == c' {
      assert NonceKey(c, [COLON]) == NonceKey(c', [COLON]);
    }
    if Extends(c, c') {
      ExtensionShares(c, c', [COLON]);
    }
    if Extends(c', c) {
      ExtensionShares(c', c, [COLON]);
    }
  }

  lemma SharedKeyExtends(c: Bytes, n: Bytes, c': Bytes, n': Bytes)
    requires |c| <= |c'| && NonceKey(c, n) == NonceKey(c', n')
    ensures c == c' || Extends(c, c')
  {
    var s := c + [COLON] + n;
    assert NonceKey(c, n)[6..] == s && NonceKey(c', n')[6..] == c' + [COLON] + n';
    assert s[..|c|] == c && s[|c|] == COLON;
    assert (c' + [COLON] + n')[..|c|] == c'[..|c|];
  }

  lemma ExtensionShares(c: Bytes, c': Bytes, n: Bytes)
    requires Extends(c, c') && n != []
    ensures exists n' :: n' != [] && NonceKey(c', n) == NonceKey(c, n')
  {
    var more := c'[|c| + 1..];
    assert c' == c + [COLON] + more;
    ColonSharesNonces(c, more, n);
    assert more + [COLON] + n != [];
  }
}
