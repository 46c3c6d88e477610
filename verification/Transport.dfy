/**
 A metric's way over HTTP: Sender.post (internal/agent/sender.go) and the server's middleware
 in the order cmd/server/main.go installs it: decryption (internal/httpmw/decrypt.go), the
 trusted subnet (internal/httpmw/subnet.go), gzip (internal/httpmw/gzip.go) and the hash
 check (internal/handler/handlers.go), then decodeBody.
 */
module Transport {
  import opened Model
  import opened Wire

  datatype Encoding = NoEncoding | Gzip | Encrypted | OtherEncoding(name: string)

  /** What reading a body yields: some bytes, and then its end or an error. */
  datatype Stream = Stream(bytes: Bytes, whole: bool)

  /** gzip and HMAC-SHA256 in hexadecimal. Decompression refuses a bad header at once, other damage while reading. */
  datatype Library = Library(compress: Bytes -> Bytes, decompress: Stream -> Option<Stream>, hmac: (Bytes, string) -> string) {
    ghost predicate Lawful() {
      && (forall b :: decompress(Stream(compress(b), true)) == Some(Stream(b, true)))
      && (forall b, key :: hmac(b, key) != "")
    }
  }

  /** What the server looks at in a request; an absent header reads as the empty string. */
  datatype Message = Message(body: Stream, encoding: Encoding, hash: string, realIP: string)

  datatype Verdict = Pass(m: Message) | Reject(status: int)

  class Request {
    var body: Stream
    var contentLength: int
    var encoding: Encoding
    const hash: string
    const realIP: string

    constructor (body: Bytes, encoding: Encoding, hash: string, realIP: string)
      ensures Now() == Message(Stream(body, true), encoding, hash, realIP) && contentLength == |body|
    {
      this.body, this.encoding, this.hash, this.realIP := Stream(body, true), encoding, hash, realIP;
      contentLength := |body|;
    }

    function Now(): Message
      reads this
    {
      Message(body, encoding, hash, realIP)
    }
  }

  // ---- The agent ---------------------------------------------------------------------------

  /** An empty key disables signing, no primitives disable encryption. */
  datatype Sender = Sender(key: string, encryption: Option<Primitives>, localIP: string)

  /** Sender.post up to the request it sends; None when encryption fails. */
  method Post(lib: Library, sender: Sender, rnd: Random, body: Bytes) returns (r: Option<Request>)
    ensures r.Some? <==> Posted(lib, sender, rnd, body).Some?
    ensures r.Some? ==> fresh(r.value) && r.value.Now() == Posted(lib, sender, rnd, body).value
  {
    var payload := lib.compress(body);
    var contentEncoding := Gzip;
    if sender.encryption.Some? {
      var encrypted := Encrypt(sender.encryption.value, rnd, payload);
      if encrypted.None? {
        return None;
      }
      payload := encrypted.value;
      contentEncoding := Encrypted;
    }
    var hash := if sender.key != "" then lib.hmac(body, sender.key) else "";
    var request := new Request(payload, contentEncoding, hash, sender.localIP);
    return Some(request);
  }

  /** The message post puts on the wire: compressed, perhaps encrypted, signed over the plain body. */
  function Posted(lib: Library, sender: Sender, rnd: Random, body: Bytes): Option<Message> {
    var hash := if sender.key != "" then lib.hmac(body, sender.key) else "";
    match sender.encryption
    case None => Some(Message(Stream(lib.compress(body), true), Gzip, hash, sender.localIP))
    case Some(p) =>
      var encKey := p.rsaEncrypt(rnd.aesKey, rnd.seed);
      if encKey.None? then None
      else
        var frame := Frame(encKey.value, rnd.nonce, p.seal(rnd.aesKey, rnd.nonce, lib.compress(body)));
        Some(Message(Stream(frame, true), Encrypted, hash, sender.localIP))
  }

  // ---- The server ----------------------------------------------------------------------------

  /** subnet is the CIDR test of the X-Real-IP header; without a subnet everyone passes. */
  datatype Server = Server(key: string, decryption: Option<Primitives>, subnet: Option<string -> bool>)

  function Decrypting(lib: Library, s: Server, m: Message): Verdict {
    if s.decryption.None? || !m.encoding.Encrypted? then Pass(m)
    else if !m.body.whole then Reject(400)
    else
      var compressed := Decrypt(s.decryption.value, m.body.bytes);
      if compressed.Failed? then Reject(400)
      else
        var plain := lib.decompress(Stream(compressed.bytes, true));
        if plain.None? || !plain.value.whole then Reject(400) else Pass(m.(body := plain.value, encoding := NoEncoding))
  }

  /** An absent header is no address, whatever the subnet. */
  predicate Trusted(s: Server, realIP: string) {
    s.subnet.None? || (realIP != "" && s.subnet.value(realIP))
  }

  function Filtering(s: Server, m: Message): Verdict {
    if Trusted(s, m.realIP) then Pass(m) else Reject(403)
  }

  function Unzipping(lib: Library, m: Message): Verdict {
    if !m.encoding.Gzip? then Pass(m)
    else
      var plain := lib.decompress(m.body);
      if plain.None? then Reject(400) else Pass(m.(body := plain.value, encoding := NoEncoding))
  }

  function Checking(lib: Library, s: Server, m: Message): Verdict {
    if s.key == "" || (m.body.whole && lib.hmac(m.body.bytes, s.key) == m.hash) then Pass(m) else Reject(400)
  }

  /** What decodeBody hands to the JSON decoder. */
  function DecodeBody(lib: Library, m: Message): Option<Stream> {
    if m.encoding.Gzip? then lib.decompress(m.body) else Some(m.body)
  }

  method DecryptMiddleware(lib: Library, s: Server, r: Request) returns (status: Option<int>)
    modifies r
    ensures status.None? ==> Decrypting(lib, s, old(r.Now())) == Pass(r.Now())
    ensures status.Some? ==> Decrypting(lib, s, old(r.Now())) == Reject(status.value)
    ensures r.encoding != old(r.encoding) ==> r.contentLength == |r.body.bytes|
  {
    if s.decryption.None? || !r.encoding.Encrypted? {
      return None;
    }
    if !r.body.whole {
      return Some(400);
    }
    var compressed := Decrypt(s.decryption.value, r.body.bytes);
    if compressed.Failed? {
      return Some(400);
    }
    var plain := lib.decompress(Stream(compressed.bytes, true));
    if plain.None? || !plain.value.whole {
      return Some(400);
    }
    r.body := plain.value;
    r.contentLength := |plain.value.bytes|;
    r.encoding := NoEncoding;
    return None;
  }

  method GzipMiddleware(lib: Library, r: Request) returns (status: Option<int>)
    modifies r
    ensures status.None? ==> Unzipping(lib, old(r.Now())) == Pass(r.Now())
    ensures status.Some? ==> Unzipping(lib, old(r.Now())) == Reject(status.value)
  {
    if !r.encoding.Gzip? {
      return None;
    }
    var plain := lib.decompress(r.body);
    if plain.None? {
      return Some(400);
    }
    r.body := plain.value;
    r.encoding := NoEncoding;
    return None;
  }

  /** The whole chain, then the handler's reading of the body. */
  method Receive(lib: Library, s: Server, r: Request) returns (status: Option<int>, body: Option<Stream>)
    modifies r
    ensures Received(lib, s, old(r.Now())) == if status.Some? then Reject(status.value) else Pass(r.Now())
    ensures status.None? ==> body == DecodeBody(lib, r.Now()) == Some(r.body)
    ensures status.None? && s.key != "" ==> r.body.whole && lib.hmac(r.body.bytes, s.key) == r.hash
  {
    ghost var sent := r.Now();
    body := None;
    status := DecryptMiddleware(lib, s, r);
    if status.Some? {
      return;
    }
    if s.subnet.Some? && (r.realIP == "" || !s.subnet.value(r.realIP)) {
      return Some(403), None;
    }
    status := GzipMiddleware(lib, r);
    if status.Some? {
      return;
    }
    if s.key != "" && (!r.body.whole || lib.hmac(r.body.bytes, s.key) != r.hash) {
      return Some(400), None;
    }
    body := DecodeBody(lib, r.Now());
    PassMeans(lib, s, sent);
  }

  function Received(lib: Library, s: Server, m: Message): Verdict {
    var a := Decrypting(lib, s, m);
    if a.Reject? then a
    else
      var b := Filtering(s, a.m);
      if b.Reject? then b
      else
        var c := Unzipping(lib, b.m);
        if c.Reject? then c else Checking(lib, s, c.m)
  }

  /** A handler that the middleware did not serve decodes a gzip body itself, and takes any other as it is. */
  lemma DecodesAlone(lib: Library, m: Message, b: Bytes)
    requires lib.Lawful()
    ensures m.encoding.Gzip? && m.body == Stream(lib.compress(b), true) ==> DecodeBody(lib, m) == Some(Stream(b, true))
    ensures !m.encoding.Gzip? ==> DecodeBody(lib, m) == Some(m.body)
  {
  }

  /** What the key-less and the keyed server make of a body that is ready to be checked. */
  function Admitted(lib: Library, s: Server, m: Message, body: Stream, encoding: Encoding): Verdict {
    if s.key != "" && !(body.whole && lib.hmac(body.bytes, s.key) == m.hash) then Reject(400)
    else Pass(m.(body := body, encoding := encoding))
  }

  /** An address that an IP filter, where there is one, lets through: present and inside the subnet. */
  predicate Inside(s: Server, realIP: string) {
    match s.subnet
    case None => true
    case Some(allowed) => realIP != "" && allowed(realIP)
  }

  /**
   The whole chain, for any message whatever. A body without an encoding the server undoes (none,
   another, or an encrypted one without a private key) goes on as it is; a gzip body is opened
   after the address check; an encrypted body is opened before it.
   */
  lemma ChainMeaning(lib: Library, s: Server, m: Message)
    ensures m.encoding.NoEncoding? || m.encoding.OtherEncoding? || (m.encoding.Encrypted? && s.decryption.None?) ==>
      Received(lib, s, m) == if !Inside(s, m.realIP) then Reject(403) else Admitted(lib, s, m, m.body, m.encoding)
    ensures m.encoding.Gzip? ==>
      Received(lib, s, m) ==
      if !Inside(s, m.realIP) then Reject(403)
      else if lib.decompress(m.body).None? then Reject(400)
      else Admitted(lib, s, m, lib.decompress(m.body).value, NoEncoding)
    ensures m.encoding.Encrypted? && s.decryption.Some? ==>
      var plain := Decrypt(s.decryption.value, m.body.bytes);
      var inside := if m.body.whole && plain.Plaintext? then lib.decompress(Stream(plain.bytes, true)) else None;
      Received(lib, s, m) ==
      if inside.None? || !inside.value.whole then Reject(400)
      else if !Inside(s, m.realIP) then Reject(403)
      else Admitted(lib, s, m, inside.value, NoEncoding)
  {
  }

  // ---- End to end ------------------------------------------------------------------------------

  /** The agent's and the server's key files belong together wherever the agent encrypts. */
  ghost predicate SameCiphers(sender: Sender, s: Server) {
    sender.encryption.Some? ==> s.decryption == sender.encryption
  }

  /** Does the signature the agent sends satisfy the server? */
  predicate Signed(lib: Library, sender: Sender, s: Server, body: Bytes) {
    s.key == "" || (sender.key != "" && lib.hmac(body, s.key) == lib.hmac(body, sender.key))
  }

  predicate Allowed(sender: Sender, s: Server) {
    Trusted(s, sender.localIP)
  }

  lemma DecryptingPosted(lib: Library, sender: Sender, s: Server, rnd: Random, body: Bytes)
    requires lib.Lawful() && SameCiphers(sender, s) && rnd.WellSized()
    requires sender.encryption.Some? ==> sender.encryption.value.Lawful()
    requires Posted(lib, sender, rnd, body).Some?
    ensures
      var m := Posted(lib, sender, rnd, body).value;
      Decrypting(lib, s, m) ==
      Pass(if sender.encryption.Some? then m.(body := Stream(body, true), encoding := NoEncoding) else m)
  {
    if sender.encryption.Some? {
      DecryptOfEncrypt(sender.encryption.value, rnd, lib.compress(body));
    }
  }

  /**
   For every body and every choice of signing and encryption: the handler gets exactly the
   bytes given to post, with the encoding header cleared so that it decodes them once, if
   and only if the agent's address is allowed and its signature satisfies the server's key;
   otherwise the answer is 403 or 400 respectively.
   */
  lemma RoundTrip(lib: Library, sender: Sender, s: Server, rnd: Random, body: Bytes)
    requires lib.Lawful() && SameCiphers(sender, s) && rnd.WellSized()
    requires sender.encryption.Some? ==> sender.encryption.value.Lawful()
    requires Posted(lib, sender, rnd, body).Some?
    ensures
      var v := Received(lib, s, Posted(lib, sender, rnd, body).value);
      if !Allowed(sender, s) then v == Reject(403)
      else if !Signed(lib, sender, s, body) then v == Reject(400)
      else v.Pass? && v.m.encoding.NoEncoding? && v.m.body == Stream(body, true) && DecodeBody(lib, v.m) == Some(v.m.body)
  {
    DecryptingPosted(lib, sender, s, rnd, body);
  }

  /**
   Any message whatever, damaged or forged: with a key, the handler is reached only by a body
   that was read to its end and carries the hash of exactly the bytes the handler decodes;
   an encrypted or compressed body reaches it decoded, without the header.
   */
  lemma PassMeans(lib: Library, s: Server, m: Message)
    requires Received(lib, s, m).Pass?
    ensures
      var r := Received(lib, s, m).m;
      && (s.key != "" ==> r.body.whole && lib.hmac(r.body.bytes, s.key) == m.hash)
      && Trusted(s, m.realIP)
      && DecodeBody(lib, r) == Some(r.body)
      && (m.encoding.Gzip? ==> r.encoding.NoEncoding? && lib.decompress(m.body) == Some(r.body))
      && (m.encoding.Encrypted? && s.decryption.Some? ==>
            var plain := Decrypt(s.decryption.value, m.body.bytes);
            && m.body.whole && r.encoding.NoEncoding? && r.body.whole
            && plain.Plaintext? && lib.decompress(Stream(plain.bytes, true)) == Some(r.body))
  {
  }
}
