/** The stored form of an auth state (src/models/authSessionsModel.js):
    `JSON.stringify` with the buffer replacer, then either plain base64 of the
    text when no key is configured, or AES-256-GCM under the configured key
    with the blob framed as `iv(12) ‖ tag(16) ‖ ciphertext` and base64-encoded.
    The cipher and the JSON text syntax are foreign: they are parameters, and
    the properties they are trusted to have are stated as predicates. */
module AuthCodec {
  import opened Base
  import opened Json
  import BufferJson
  import Base64

  /** AES-256-GCM with a 16-byte tag: `seal(key, iv, plaintext)` gives the
      ciphertext and the tag; `open(key, iv, tag, ciphertext)` gives the
      plaintext, or None when authentication fails. */
  datatype Aead = Aead(
    seal: (Bytes, Bytes, Bytes) -> (Bytes, Bytes),
    open: (Bytes, Bytes, Bytes, Bytes) -> Option<Bytes>)

  /** What the model trusts of the cipher: for a 32-byte key and a 12-byte
      iv, the tag has 16 bytes and opening what was sealed gives it back. */
  ghost predicate AeadInverts(a: Aead) {
    forall key: Bytes, iv: Bytes, pt: Bytes {:trigger a.seal(key, iv, pt)} ::
      |key| == 32 && |iv| == 12 ==>
        var sealed := a.seal(key, iv, pt);
        |sealed.1| == 16 && a.open(key, iv, sealed.1, sealed.0) == Some(pt)
  }

  /** JSON text in UTF-8: `stringify` writes a plain value, `parse` reads
      one (None where `JSON.parse` throws). */
  datatype TextCodec = TextCodec(stringify: Value -> Bytes, parse: Bytes -> Option<Value>)

  /** What the model trusts of the text syntax: every plain value has a
      non-empty text ("null" included) that parses back to it. */
  ghost predicate TextRoundTrips(t: TextCodec) {
    forall j: Value {:trigger t.stringify(j)} :: IsPlain(j) ==> |t.stringify(j)| > 0 && t.parse(t.stringify(j)) == Some(j)
  }

  /** `AUTH_ENCRYPTION_KEY` (None when unset) and the foreign pieces. */
  datatype Config = Config(key: Option<string>, aead: Aead, text: TextCodec)

  /** `if (!KEY)` is false: the variable is set and not empty. */
  predicate KeyConfigured(c: Config) {
    c.key.Some? && |c.key.value| > 0
  }

  /** `Buffer.from(KEY, 'base64')`. */
  function KeyBytes(c: Config): Bytes
    requires KeyConfigured(c)
  {
    Base64.Decode(c.key.value)
  }

  /** `Buffer.concat([iv, tag, enc])`. */
  function Frame(iv: Bytes, tag: Bytes, ct: Bytes): (raw: Bytes)
    ensures |raw| == |iv| + |tag| + |ct|
  {
    iv + tag + ct
  }

  /** `raw.slice(0, 12)`, `raw.slice(12, 28)` and `raw.slice(28)`, each cut
      short where the buffer ends. */
  function Unframe(raw: Bytes): (parts: (Bytes, Bytes, Bytes))
    ensures |raw| >= 28 ==> |parts.0| == 12 && |parts.1| == 16 && |parts.2| == |raw| - 28
    ensures |raw| < 28 ==> |parts.1| < 16 && parts.2 == []
  {
    var n := |raw|;
    (raw[..Min(12, n)], raw[Min(12, n)..Min(28, n)], raw[Min(28, n)..])
  }

  function Min(a: int, b: int): int {
    if a < b then a else b
  }

  /** The slices read back exactly the iv, tag and ciphertext that were
      framed. */
  lemma UnframeFrame(iv: Bytes, tag: Bytes, ct: Bytes)
    requires |iv| == 12 && |tag| == 16
    ensures Unframe(Frame(iv, tag, ct)) == (iv, tag, ct)
  {
    var raw := Frame(iv, tag, ct);
    assert raw[..12] == iv;
    assert raw[12..28] == tag;
    assert raw[28..] == ct;
  }

  /** Every blob of at least 28 bytes is the frame of its own slices. */
  lemma FrameUnframe(raw: Bytes)
    requires |raw| >= 28
    ensures Frame(Unframe(raw).0, Unframe(raw).1, Unframe(raw).2) == raw
  {
    assert raw[..12] + raw[12..28] + raw[28..] == raw;
  }

  /** `encrypt(plain)`; `iv` is the `crypto.randomBytes(12)` of this call.
      The text is written with the replacer as it stands in the code. */
  function Encrypt(c: Config, plain: Value, iv: Bytes): (r: Result<string>)
    requires |iv| == 12
    ensures r.Err? <==> KeyConfigured(c) && |KeyBytes(c)| != 32
    ensures r.Err? ==> r.error == KeyLengthInvalid
    ensures !KeyConfigured(c) ==> r == Ok(Base64.Encode(Serialized(c, plain)))
  {
    Seal(c, Serialized(c, plain), iv)
  }

  /** `encrypt` with the replacer its doc comment describes, base64 for
      every kind of buffer. */
  function EncryptCorrected(c: Config, plain: Value, iv: Bytes): (r: Result<string>)
    requires |iv| == 12
  {
    Seal(c, c.text.stringify(BufferJson.Stringified(BufferJson.Corrected, plain)), iv)
  }

  /** What `encrypt` does with the serialized text: plain base64 without a
      key, otherwise the framed AES-GCM output in base64. */
  function Seal(c: Config, serialized: Bytes, iv: Bytes): (r: Result<string>)
    requires |iv| == 12
    ensures r.Err? <==> KeyConfigured(c) && |KeyBytes(c)| != 32
    ensures r.Err? ==> r.error == KeyLengthInvalid
  {
    if !KeyConfigured(c) then Ok(Base64.Encode(serialized))
    else if |KeyBytes(c)| != 32 then Err(KeyLengthInvalid)
    else
      var (ct, tag) := c.aead.seal(KeyBytes(c), iv, serialized);
      Ok(Base64.Encode(Frame(iv, tag, ct)))
  }

  /** `decrypt(blob)`: Err where it throws. */
  function Decrypt(c: Config, blob: string): (r: Result<Value>)
    ensures KeyConfigured(c) && |KeyBytes(c)| != 32 ==> r == Err(KeyLengthInvalid)
    ensures KeyConfigured(c) && |Base64.Decode(blob)| < 28 ==> r.Err?
    ensures r.Ok? ==> Plaintext(c, blob).Ok? && c.text.parse(Plaintext(c, blob).value).Some?
  {
    var text :- Plaintext(c, blob);
    var parsed :- OfOption(c.text.parse(text), MalformedJson);
    OfOption(BufferJson.ReviveAll(parsed), BufferFromRejected)
  }

  /** The UTF-8 text inside a blob: its base64 decoding without a key, the
      authenticated GCM plaintext with one. */
  function Plaintext(c: Config, blob: string): (r: Result<Bytes>)
    ensures !KeyConfigured(c) ==> r == Ok(Base64.Decode(blob))
    ensures KeyConfigured(c) && |KeyBytes(c)| != 32 ==> r == Err(KeyLengthInvalid)
    ensures KeyConfigured(c) && |Base64.Decode(blob)| < 28 ==> r.Err?
  {
    if !KeyConfigured(c) then Ok(Base64.Decode(blob))
    else if |KeyBytes(c)| != 32 then Err(KeyLengthInvalid)
    else
      var (iv, tag, ct) := Unframe(Base64.Decode(blob));
      if |iv| == 0 || |tag| != 16 then Err(DecryptionFailed)
      else OfOption(c.aead.open(KeyBytes(c), iv, tag, ct), DecryptionFailed)
  }

  function OfOption<T>(o: Option<T>, e: Error): (r: Result<T>)
    ensures r.Ok? <==> o.Some?
    ensures o.Some? ==> r.value == o.value
    ensures o.None? ==> r.error == e
  {
    if o.Some? then Ok(o.value) else Err(e)
  }

  /** The text `JSON.stringify(plain, bufferReplacer)` writes. */
  function Serialized(c: Config, plain: Value): Bytes {
    c.text.stringify(BufferJson.Stringified(BufferJson.AsWritten, plain))
  }

  /** Without a key the blob is the plain base64 of the serialized text and
      decodes back to it. */
  lemma NoKeyBlob(c: Config, text: Bytes, iv: Bytes)
    requires |iv| == 12 && !KeyConfigured(c)
    ensures Seal(c, text, iv) == Ok(Base64.Encode(text))
    ensures Plaintext(c, Seal(c, text, iv).value) == Ok(text)
  {
    Base64.RoundTrip(text);
  }

  /** With a valid key the blob decodes to `iv ‖ tag ‖ ciphertext` where the
      tag has 16 bytes, and the slices recover the three parts. */
  lemma KeyedBlob(c: Config, text: Bytes, iv: Bytes)
    requires |iv| == 12 && KeyConfigured(c) && |KeyBytes(c)| == 32 && AeadInverts(c.aead)
    ensures Seal(c, text, iv).Ok?
    ensures var sealed := c.aead.seal(KeyBytes(c), iv, text);
      var raw := Base64.Decode(Seal(c, text, iv).value);
      raw == Frame(iv, sealed.1, sealed.0) && Unframe(raw) == (iv, sealed.1, sealed.0)
  {
    var sealed := c.aead.seal(KeyBytes(c), iv, text);
    Base64.RoundTrip(Frame(iv, sealed.1, sealed.0));
    UnframeFrame(iv, sealed.1, sealed.0);
  }

  /** Under either mode, decrypting the blob gives back the serialized text. */
  lemma PlaintextOfBlob(c: Config, text: Bytes, iv: Bytes)
    requires |iv| == 12 && AeadInverts(c.aead)
    requires KeyConfigured(c) ==> |KeyBytes(c)| == 32
    ensures Seal(c, text, iv).Ok?
    ensures Plaintext(c, Seal(c, text, iv).value) == Ok(text)
  {
    if KeyConfigured(c) {
      KeyedBlob(c, text, iv);
    } else {
      NoKeyBlob(c, text, iv);
    }
  }

  /** `decrypt(encrypt(x))` is what `JSON.parse(JSON.stringify(x,
      bufferReplacer), bufferReviver)` gives, with or without a key. */
  lemma EncryptDecrypt(c: Config, plain: Value, iv: Bytes)
    requires |iv| == 12 && AeadInverts(c.aead) && TextRoundTrips(c.text)
    requires KeyConfigured(c) ==> |KeyBytes(c)| == 32
    ensures Encrypt(c, plain, iv).Ok?
    ensures Decrypt(c, Encrypt(c, plain, iv).value)
         == OfOption(BufferJson.ReviveAll(BufferJson.Stringified(BufferJson.AsWritten, plain)), BufferFromRejected)
  {
    PlaintextOfBlob(c, Serialized(c, plain), iv);
    var p := BufferJson.Stringified(BufferJson.AsWritten, plain);
    assert c.text.parse(c.text.stringify(p)) == Some(p);
  }

  /** `decrypt(encrypt(x))`, with or without a key, for every value in which
      no object already looks like a tagged buffer: x with each bare
      `Uint8Array` garbled as `AsRead` says, and x itself when its buffers
      are all Node `Buffer`s. */
  lemma RoundTrip(c: Config, plain: Value, iv: Bytes)
    requires |iv| == 12 && AeadInverts(c.aead) && TextRoundTrips(c.text)
    requires KeyConfigured(c) ==> |KeyBytes(c)| == 32
    requires TagFree(plain)
    ensures Encrypt(c, plain, iv).Ok?
    ensures Decrypt(c, Encrypt(c, plain, iv).value) == Ok(BufferJson.AsRead(plain))
    ensures NodeBuffersOnly(plain) ==> Decrypt(c, Encrypt(c, plain, iv).value) == Ok(plain)
  {
    EncryptDecrypt(c, plain, iv);
    BufferJson.AsWrittenRoundTrip(plain);
    if NodeBuffersOnly(plain) {
      BufferJson.AsReadIdentity(plain);
    }
  }

  /** With the corrected replacer `decrypt(encrypt(x))` is x with every
      buffer a Node `Buffer`, bare `Uint8Array`s included. */
  lemma CorrectedRoundTrip(c: Config, plain: Value, iv: Bytes)
    requires |iv| == 12 && AeadInverts(c.aead) && TextRoundTrips(c.text)
    requires KeyConfigured(c) ==> |KeyBytes(c)| == 32
    requires TagFree(plain)
    ensures EncryptCorrected(c, plain, iv).Ok?
    ensures Decrypt(c, EncryptCorrected(c, plain, iv).value) == Ok(AsNode(plain))
  {
    var p := BufferJson.Stringified(BufferJson.Corrected, plain);
    PlaintextOfBlob(c, c.text.stringify(p), iv);
    assert c.text.parse(c.text.stringify(p)) == Some(p);
    BufferJson.CorrectedRoundTrip(plain);
  }

  /** `encrypt` as written loses a bare `Uint8Array`: `{key: Uint8Array [5]}`
      is stored with data "5" and decrypted with an empty buffer. */
  lemma StoredUint8ArrayLost(c: Config, iv: Bytes)
    requires |iv| == 12 && AeadInverts(c.aead) && TextRoundTrips(c.text)
    requires KeyConfigured(c) ==> |KeyBytes(c)| == 32
    ensures var plain := JObj(map["key" := JBuf([5], false)]);
      Encrypt(c, plain, iv).Ok?
      && Decrypt(c, Encrypt(c, plain, iv).value) == Ok(JObj(map["key" := JBuf([], true)]))
  {
    var plain := JObj(map["key" := JBuf([5], false)]);
    EncryptDecrypt(c, plain, iv);
    BufferJson.Uint8ArrayFieldLost();
  }

  /** A plain value, such as the snapshot `toJSON` produces, is stored and
      read back as the reviver's reading of it. */
  lemma PlainRoundTrip(c: Config, p: Value, iv: Bytes)
    requires |iv| == 12 && AeadInverts(c.aead) && TextRoundTrips(c.text)
    requires KeyConfigured(c) ==> |KeyBytes(c)| == 32
    requires IsPlain(p)
    ensures Encrypt(c, p, iv).Ok?
    ensures Decrypt(c, Encrypt(c, p, iv).value) == OfOption(BufferJson.ReviveAll(p), BufferFromRejected)
  {
    EncryptDecrypt(c, p, iv);
    BufferJson.StringifiedPlain(BufferJson.AsWritten, p);
  }

  /** A configured key that is not 32 bytes makes both directions throw. */
  lemma BadKeyLength(c: Config, plain: Value, iv: Bytes, blob: string)
    requires |iv| == 12 && KeyConfigured(c) && |KeyBytes(c)| != 32
    ensures Encrypt(c, plain, iv) == Err(KeyLengthInvalid)
    ensures Decrypt(c, blob) == Err(KeyLengthInvalid)
  {
  }

  /** With a key, a blob shorter than iv and tag cannot be decrypted. */
  lemma ShortBlob(c: Config, blob: string)
    requires KeyConfigured(c) && |Base64.Decode(blob)| < 28
    ensures Decrypt(c, blob).Err?
  {
  }

  /** Saving a null auth state stores a non-empty blob that reads back as
      null. */
  lemma NullAuth(c: Config, iv: Bytes)
    requires |iv| == 12 && AeadInverts(c.aead) && TextRoundTrips(c.text)
    requires KeyConfigured(c) ==> |KeyBytes(c)| == 32
    ensures Encrypt(c, JNull, iv).Ok? && |Encrypt(c, JNull, iv).value| > 0
    ensures Decrypt(c, Encrypt(c, JNull, iv).value) == Ok(JNull)
  {
    RoundTrip(c, JNull, iv);
    var p := BufferJson.Stringified(BufferJson.AsWritten, JNull);
    assert |c.text.stringify(p)| > 0;
  }
}
