/**
 The encrypted wire format (internal/crypto/crypto.go): assembling and parsing it, with
 RSA-OAEP and AES-GCM as functions whose inverse laws are hypotheses.
 */
module Wire {
  import opened Model

  const NONCE_SIZE: nat := 12

  /** binary.BigEndian.PutUint16 of a length converted to uint16. */
  function LengthPrefix(n: nat): Bytes {
    [n % 65536 / 256, n % 256]
  }

  /** binary.BigEndian.Uint16 of the first two bytes. */
  function PrefixedLength(data: Bytes): nat
    requires |data| >= 2
  {
    var hi: int, lo: int := data[0], data[1];
    hi * 256 + lo
  }

  function Frame(encKey: Bytes, nonce: Bytes, ciphertext: Bytes): Bytes {
    LengthPrefix(|encKey|) + encKey + nonce + ciphertext
  }

  /** Go's copy into dst[at:], where src fits. */
  method CopyInto(dst: array<Byte>, at: nat, src: Bytes)
    requires at + |src| <= dst.Length
    modifies dst
    ensures dst[..] == old(dst[..at]) + src + old(dst[at + |src|..])
  {
    ghost var before := dst[..];
    for i := 0 to |src|
      invariant dst[..] == before[..at] + src[..i] + before[at + i..]
    {
      dst[at + i] := src[i];
    }
  }

  /** The assembly at the end of Encrypt: one allocation, filled at offsets. */
  method Assemble(encKey: Bytes, nonce: Bytes, ciphertext: Bytes) returns (out: array<Byte>)
    ensures fresh(out) && out[..] == Frame(encKey, nonce, ciphertext)
  {
    var n := |encKey|;
    out := new Byte[2 + n + |nonce| + |ciphertext|];
    CopyInto(out, 0, LengthPrefix(n));
    ghost var a := out[2..];
    assert out[..] == LengthPrefix(n) + a;
    CopyInto(out, 2, encKey);
    ghost var b := out[2 + n..];
    assert out[..] == LengthPrefix(n) + encKey + b;
    CopyInto(out, 2 + n, nonce);
    ghost var c := out[2 + n + |nonce|..];
    assert out[..] == LengthPrefix(n) + encKey + nonce + c;
    CopyInto(out, 2 + n + |nonce|, ciphertext);
  }

  datatype Error = TooShort | TruncatedKey | RsaFailed | BadAesKey | TruncatedNonce | GcmFailed

  datatype Parsed = Parsed(encKey: Bytes, nonce: Bytes, ciphertext: Bytes) | Malformed(err: Error)

  /** The length checks and slices of Decrypt, without the cryptography between them. */
  function Parse(data: Bytes): Parsed {
    if |data| < 2 then Malformed(TooShort)
    else
      var n := PrefixedLength(data);
      if |data| < 2 + n then Malformed(TruncatedKey)
      else if |data| - 2 - n < NONCE_SIZE then Malformed(TruncatedNonce)
      else Parsed(data[2..2 + n], data[2 + n..2 + n + NONCE_SIZE], data[2 + n + NONCE_SIZE..])
  }

  /** Parsing undoes assembling exactly when the length of the encrypted key fits its two bytes. */
  lemma ParseOfFrame(encKey: Bytes, nonce: Bytes, ciphertext: Bytes)
    requires |nonce| == NONCE_SIZE
    ensures Parse(Frame(encKey, nonce, ciphertext)) == Parsed(encKey, nonce, ciphertext) <==> |encKey| < 65536
  {
    FramePrefix(encKey, nonce, ciphertext);
    if |encKey| < 65536 {
      FrameSlices(encKey, nonce, ciphertext);
    }
  }

  lemma FramePrefix(encKey: Bytes, nonce: Bytes, ciphertext: Bytes)
    ensures
      var data := Frame(encKey, nonce, ciphertext);
      |data| == 2 + |encKey| + |nonce| + |ciphertext| && PrefixedLength(data) == |encKey| % 65536
  {
    var data := Frame(encKey, nonce, ciphertext);
    assert data[0] == LengthPrefix(|encKey|)[0] && data[1] == LengthPrefix(|encKey|)[1];
  }

  lemma FrameSlices(encKey: Bytes, nonce: Bytes, ciphertext: Bytes)
    ensures
      var data, n, m := Frame(encKey, nonce, ciphertext), |encKey|, |nonce|;
      data[2..2 + n] == encKey && data[2 + n..2 + n + m] == nonce && data[2 + n + m..] == ciphertext
  {
  }

  /** Assembling undoes parsing: no two inputs parse alike. */
  lemma FrameOfParse(data: Bytes)
    requires Parse(data).Parsed?
    ensures
      var p := Parse(data);
      Frame(p.encKey, p.nonce, p.ciphertext) == data && |p.encKey| < 65536 && |p.nonce| == 12
  {
    var p := Parse(data);
    PrefixOfLength(data);
    assert data == data[..2] + p.encKey + p.nonce + p.ciphertext;
  }

  lemma PrefixOfLength(data: Bytes)
    requires |data| >= 2
    ensures PrefixedLength(data) < 65536 && LengthPrefix(PrefixedLength(data)) == data[..2]
  {
  }

  function BigEndian(hi: int, lo: int): int {
    hi * 256 + lo
  }

  /** The layout, byte by byte: a big-endian length, the encrypted key, 12 bytes of nonce, the rest. */
  lemma FrameLayout(encKey: Bytes, nonce: Bytes, ciphertext: Bytes)
    requires |encKey| < 65536 && |nonce| == 12
    ensures
      var data := Frame(encKey, nonce, ciphertext);
      && |data| == 14 + |encKey| + |ciphertext| && BigEndian(data[0], data[1]) == |encKey|
      && data[2..2 + |encKey|] == encKey && data[2 + |encKey|..14 + |encKey|] == nonce
      && data[14 + |encKey|..] == ciphertext
  {
    FramePrefix(encKey, nonce, ciphertext);
    FrameSlices(encKey, nonce, ciphertext);
    SmallEnough(|encKey|);
  }

  lemma SmallEnough(n: nat)
    requires n < 65536
    ensures n % 65536 == n
  {
  }

  /** Which check a malformed message fails. */
  lemma MalformedWhen(data: Bytes)
    ensures Parse(data) == Malformed(TooShort) <==> |data| < 2
    ensures Parse(data) == Malformed(TruncatedKey) <==> |data| >= 2 && |data| < 2 + BigEndian(data[0], data[1])
    ensures Parse(data) == Malformed(TruncatedNonce) <==>
      |data| >= 2 && 2 + BigEndian(data[0], data[1]) <= |data| < 14 + BigEndian(data[0], data[1])
  {
  }

  /** A message cut off before its ciphertext is malformed; cut off later it still parses. */
  lemma CutOff(encKey: Bytes, nonce: Bytes, ciphertext: Bytes, k: nat)
    requires |encKey| < 65536 && |nonce| == NONCE_SIZE && k <= |Frame(encKey, nonce, ciphertext)|
    ensures
      var p, header := Parse(Frame(encKey, nonce, ciphertext)[..k]), 2 + |encKey| + NONCE_SIZE;
      if k < header then p.Malformed? else p == Parsed(encKey, nonce, ciphertext[..k - header])
  {
    var data := Frame(encKey, nonce, ciphertext);
    var header := 2 + |encKey| + NONCE_SIZE;
    if k >= header {
      assert data[..k] == Frame(encKey, nonce, ciphertext[..k - header]);
      ParseOfFrame(encKey, nonce, ciphertext[..k - header]);
    } else if k >= 2 {
      assert data[..k][0] == data[0] && data[..k][1] == data[1];
    }
  }

  /** One RSA key pair and AES-GCM. The seed stands for the randomness OAEP uses. */
  datatype Primitives = Primitives(
    rsaEncrypt: (Bytes, nat) -> Option<Bytes>,
    rsaDecrypt: Bytes -> Option<Bytes>,
    aesKeyOk: Bytes -> bool,
    seal: (Bytes, Bytes, Bytes) -> Bytes,
    open: (Bytes, Bytes, Bytes) -> Option<Bytes>)
  {
    ghost predicate Lawful() {
      && (forall key, seed :: rsaEncrypt(key, seed).Some? ==>
            rsaDecrypt(rsaEncrypt(key, seed).value) == Some(key) && |rsaEncrypt(key, seed).value| < 65536)
      && (forall key :: |key| == 32 ==> aesKeyOk(key))
      && (forall key, nonce, plain :: open(key, nonce, seal(key, nonce, plain)) == Some(plain))
    }
  }

  /** What rand.Reader yields for one message. */
  datatype Random = Random(aesKey: Bytes, seed: nat, nonce: Bytes) {
    predicate WellSized() {
      |aesKey| == 32 && |nonce| == NONCE_SIZE
    }
  }

  method Encrypt(p: Primitives, rnd: Random, plaintext: Bytes) returns (out: Option<Bytes>)
    ensures out.Some? <==> p.rsaEncrypt(rnd.aesKey, rnd.seed).Some?
    ensures out.Some? ==>
      out.value == Frame(p.rsaEncrypt(rnd.aesKey, rnd.seed).value, rnd.nonce, p.seal(rnd.aesKey, rnd.nonce, plaintext))
  {
    var encKey := p.rsaEncrypt(rnd.aesKey, rnd.seed);
    if encKey.None? {
      return None;
    }
    var ciphertext := p.seal(rnd.aesKey, rnd.nonce, plaintext);
    var message := Assemble(encKey.value, rnd.nonce, ciphertext);
    return Some(message[..]);
  }

  datatype Decrypted = Plaintext(bytes: Bytes) | Failed(err: Error)

  /** Checks, slices and decryptions in the order of the source: RSA comes before the nonce check. */
  function Decrypt(p: Primitives, data: Bytes): Decrypted {
    if |data| < 2 then Failed(TooShort)
    else
      var n := PrefixedLength(data);
      if |data| < 2 + n then Failed(TruncatedKey)
      else
        var rest := data[2 + n..];
        var aesKey := p.rsaDecrypt(data[2..2 + n]);
        if aesKey.None? then Failed(RsaFailed)
        else if !p.aesKeyOk(aesKey.value) then Failed(BadAesKey)
        else if |rest| < NONCE_SIZE then Failed(TruncatedNonce)
        else
          var plain := p.open(aesKey.value, rest[..NONCE_SIZE], rest[NONCE_SIZE..]);
          if plain.None? then Failed(GcmFailed) else Plaintext(plain.value)
  }

  /** Decryption succeeds exactly when the message parses and both ciphers accept its parts. */
  lemma DecryptMeaning(p: Primitives, data: Bytes, plain: Bytes)
    ensures
      Decrypt(p, data) == Plaintext(plain) <==>
      var m := Parse(data);
      m.Parsed? &&
      var key := p.rsaDecrypt(m.encKey);
      key.Some? && p.aesKeyOk(key.value) && p.open(key.value, m.nonce, m.ciphertext) == Some(plain)
  {
    if Parse(data).Parsed? {
      var n := PrefixedLength(data);
      assert data[2 + n..][..NONCE_SIZE] == data[2 + n..2 + n + NONCE_SIZE];
      assert data[2 + n..][NONCE_SIZE..] == data[2 + n + NONCE_SIZE..];
    }
  }

  /** Which error a message that does not decrypt is answered with: the nonce is looked at after the key. */
  lemma DecryptFailsWith(p: Primitives, data: Bytes)
    ensures
      var r, m := Decrypt(p, data), Parse(data);
      && (m == Malformed(TooShort) || m == Malformed(TruncatedKey) ==> r == Failed(m.err))
      && (m != Malformed(TooShort) && m != Malformed(TruncatedKey) ==>
            var key := p.rsaDecrypt(data[2..2 + PrefixedLength(data)]);
            && (key.None? ==> r == Failed(RsaFailed))
            && (key.Some? && !p.aesKeyOk(key.value) ==> r == Failed(BadAesKey))
            && (key.Some? && p.aesKeyOk(key.value) && m.Malformed? ==> r == Failed(TruncatedNonce))
            && (key.Some? && p.aesKeyOk(key.value) && m.Parsed? && p.open(key.value, m.nonce, m.ciphertext).None? ==>
                  r == Failed(GcmFailed)))
  {
    if Parse(data).Parsed? {
      var n := PrefixedLength(data);
      assert data[2 + n..][..NONCE_SIZE] == data[2 + n..2 + n + NONCE_SIZE];
      assert data[2 + n..][NONCE_SIZE..] == data[2 + n + NONCE_SIZE..];
    }
  }

  lemma DecryptOfEncrypt(p: Primitives, rnd: Random, plain: Bytes)
    requires p.Lawful() && rnd.WellSized() && p.rsaEncrypt(rnd.aesKey, rnd.seed).Some?
    ensures Decrypt(p, Frame(p.rsaEncrypt(rnd.aesKey, rnd.seed).value, rnd.nonce, p.seal(rnd.aesKey, rnd.nonce, plain)))
            == Plaintext(plain)
  {
    var encKey, ciphertext := p.rsaEncrypt(rnd.aesKey, rnd.seed).value, p.seal(rnd.aesKey, rnd.nonce, plain);
    ParseOfFrame(encKey, rnd.nonce, ciphertext);
    DecryptMeaning(p, Frame(encKey, rnd.nonce, ciphertext), plain);
  }
}
