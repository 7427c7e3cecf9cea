/** The encrypted envelope of a stored artifact: a fixed header, then the content in sealed chunks. The ciphers and
    the digest are parameters; what is proved holds for every choice of them that decrypts what it encrypted. */
module Envelopes {
  import opened Outcomes
  import opened Numbers

  const MAGIC: seq<Byte> := [0x52, 0x54, 0x41, 0x52, 0x54, 0x45, 0x30, 0x31]
  const FORMAT_VERSION: nat := 1
  const CHUNK_BYTES: nat := 1024 * 1024
  const WRAP_NONCE_BYTES: nat := 12
  const STREAM_NONCE_BYTES: nat := 7
  const DATA_KEY_BYTES: nat := 32
  const WRAPPED_KEY_BYTES: nat := 48
  const TAG_BYTES: nat := 16
  const HEADER_BYTES: nat := 8 + 4 + 4 + 8 + 12 + 7 + 48

  datatype Error = SizeOverflow | Truncated | InvalidHeader | SizeMismatch | BadKey | BadChunk | TrailingData | DigestMismatch

  datatype Descriptor = Descriptor(digest: string, size: nat, mediaType: string)

  // ---------- Sizes ----------

  function ChunkCount(n: nat): nat {
    (n + CHUNK_BYTES - 1) / CHUNK_BYTES
  }

  /** The bytes an envelope for `n` bytes of content takes. */
  function EnvelopeBytes(n: nat): nat {
    HEADER_BYTES + n + ChunkCount(n) * TAG_BYTES
  }

  /** The computed size, with the overflow checks of 64-bit arithmetic at every step. */
  function MaximumEnvelopeBytes(n: nat): Result<nat, Error>
    requires n <= U64_MAX
  {
    if n + (CHUNK_BYTES - 1) > U64_MAX then Err(SizeOverflow)
    else
      var chunks := (n + (CHUNK_BYTES - 1)) / CHUNK_BYTES;
      var tags := if chunks * TAG_BYTES > U64_MAX then U64_MAX else chunks * TAG_BYTES;
      if n + tags > U64_MAX then Err(SizeOverflow)
      else if n + tags + HEADER_BYTES > U64_MAX then Err(SizeOverflow)
      else Ok(n + tags + HEADER_BYTES)
  }

  /** The computation fails exactly when the true size does not fit, and is exact otherwise. */
  lemma MaximumIsExact(n: nat)
    requires n <= U64_MAX
    ensures MaximumEnvelopeBytes(n) == if EnvelopeBytes(n) <= U64_MAX then Ok(EnvelopeBytes(n)) else Err(SizeOverflow)
  {
    var chunks := ChunkCount(n);
    assert chunks * CHUNK_BYTES >= n;
    assert chunks * TAG_BYTES <= n / 1000 + TAG_BYTES;
    if n + (CHUNK_BYTES - 1) > U64_MAX {
      assert chunks >= 0xFFF_FFFF_FFFF;
    }
  }

  // ---------- Numbers in the header ----------

  function BigEndian(n: nat, width: nat): (s: seq<Byte>)
    ensures |s| == width
  {
    if width == 0 then [] else BigEndian(n / 256, width - 1) + [n % 256]
  }

  function FromBigEndian(s: seq<Byte>): nat {
    if s == [] then 0 else FromBigEndian(s[..|s| - 1]) * 256 + s[|s| - 1]
  }

  function Power256(n: nat): nat {
    if n == 0 then 1 else 256 * Power256(n - 1)
  }

  lemma {:induction false} BigEndianRoundTrip(n: nat, width: nat)
    requires n < Power256(width)
    ensures FromBigEndian(BigEndian(n, width)) == n
  {
    if width > 0 {
      BigEndianRoundTrip(n / 256, width - 1);
      var s := BigEndian(n, width);
      assert s[..width - 1] == BigEndian(n / 256, width - 1);
    }
  }

  datatype Header = Header(size: nat, wrapNonce: seq<Byte>, streamNonce: seq<Byte>, wrapped: seq<Byte>) {
    predicate Valid() {
      && size <= U64_MAX
      && |wrapNonce| == WRAP_NONCE_BYTES
      && |streamNonce| == STREAM_NONCE_BYTES
      && |wrapped| == WRAPPED_KEY_BYTES
    }
  }

  function WriteHeader(h: Header): seq<Byte> {
    MAGIC + BigEndian(FORMAT_VERSION, 4) + BigEndian(CHUNK_BYTES, 4) + BigEndian(h.size, 8)
    + h.wrapNonce + h.streamNonce + h.wrapped
  }

  function ReadHeader(s: seq<Byte>): Result<Header, Error> {
    if |s| < HEADER_BYTES then Err(Truncated)
    else if s[..8] != MAGIC || FromBigEndian(s[8..12]) != FORMAT_VERSION || FromBigEndian(s[12..16]) != CHUNK_BYTES then
      Err(InvalidHeader)
    else Ok(Header(FromBigEndian(s[16..24]), s[24..36], s[36..43], s[43..91]))
  }

  /** A header is read back field by field, whatever follows it. */
  lemma HeaderRoundTrip(h: Header, rest: seq<Byte>)
    requires h.Valid()
    ensures |WriteHeader(h)| == HEADER_BYTES
    ensures ReadHeader(WriteHeader(h) + rest) == Ok(h)
  {
    hide BigEndian, FromBigEndian;
    var s := WriteHeader(h) + rest;
    assert s[..8] == MAGIC;
    assert s[8..12] == BigEndian(FORMAT_VERSION, 4);
    assert s[12..16] == BigEndian(CHUNK_BYTES, 4);
    assert s[16..24] == BigEndian(h.size, 8);
    assert s[24..36] == h.wrapNonce;
    assert s[36..43] == h.streamNonce;
    assert s[43..91] == h.wrapped;
    Widths();
    BigEndianRoundTrip(FORMAT_VERSION, 4);
    BigEndianRoundTrip(CHUNK_BYTES, 4);
    BigEndianRoundTrip(h.size, 8);
  }

  lemma Widths()
    ensures Power256(4) == U32_MAX + 1 && Power256(8) == U64_MAX + 1
  {
    assert Power256(2) == 0x1_0000 && Power256(6) == 0x1_0000_0000_0000;
  }

  // ---------- Ciphers and content ----------

  /** The primitives an envelope is made with: the content digest, the cipher that wraps the data key, and the
      streaming cipher for chunk number `index`, told which chunk is the last. */
  datatype Primitives = Primitives(
    digest: seq<Byte> -> string,
    wrap: (seq<Byte>, seq<Byte>, string, seq<Byte>) -> seq<Byte>,
    unwrap: (seq<Byte>, seq<Byte>, string, seq<Byte>) -> Option<seq<Byte>>,
    encrypt: (seq<Byte>, seq<Byte>, nat, bool, string, seq<Byte>) -> seq<Byte>,
    decrypt: (seq<Byte>, seq<Byte>, nat, bool, string, seq<Byte>) -> Option<seq<Byte>>)

  /** Decryption undoes encryption, and a ciphertext is its plaintext's length and a tag longer. */
  ghost predicate Correct(c: Primitives) {
    && (forall key, nonce, aad, m ::
          && c.unwrap(key, nonce, aad, c.wrap(key, nonce, aad, m)) == Some(m)
          && |c.wrap(key, nonce, aad, m)| == |m| + TAG_BYTES)
    && (forall key, nonce, index, last, aad, m ::
          && c.decrypt(key, nonce, index, last, aad, c.encrypt(key, nonce, index, last, aad, m)) == Some(m)
          && |c.encrypt(key, nonce, index, last, aad, m)| == |m| + TAG_BYTES)
    && (forall key, nonce, index, last, aad, m ::
          c.decrypt(key, nonce, index, last, aad, m).Some? ==> |c.decrypt(key, nonce, index, last, aad, m).value| + TAG_BYTES == |m|)
  }

  /** What is fixed for one envelope: its keys, nonces and associated data. */
  datatype Secrets = Secrets(tenantKey: seq<Byte>, dataKey: seq<Byte>, wrapNonce: seq<Byte>, streamNonce: seq<Byte>, aad: string) {
    predicate Valid() {
      |dataKey| == DATA_KEY_BYTES && |wrapNonce| == WRAP_NONCE_BYTES && |streamNonce| == STREAM_NONCE_BYTES
    }
  }

  /** The sealed chunks, from chunk `index` on: full chunks, then the last one. */
  function SealedChunks(c: Primitives, s: Secrets, plaintext: seq<Byte>, index: nat): seq<Byte>
    decreases |plaintext|
  {
    if |plaintext| > CHUNK_BYTES then
      c.encrypt(s.dataKey, s.streamNonce, index, false, s.aad, plaintext[..CHUNK_BYTES])
      + SealedChunks(c, s, plaintext[CHUNK_BYTES..], index + 1)
    else c.encrypt(s.dataKey, s.streamNonce, index, true, s.aad, plaintext)
  }

  function Envelope(c: Primitives, s: Secrets, plaintext: seq<Byte>): seq<Byte> {
    WriteHeader(Header(|plaintext|, s.wrapNonce, s.streamNonce, c.wrap(s.tenantKey, s.wrapNonce, s.aad, s.dataKey)))
    + SealedChunks(c, s, plaintext, 0)
  }

  /** The content of the chunks in `body`, when `size` bytes are expected and nothing follows. */
  function OpenedChunks(c: Primitives, s: Secrets, body: seq<Byte>, size: nat, index: nat): Result<seq<Byte>, Error>
    decreases size
  {
    if size > CHUNK_BYTES then
      if |body| < CHUNK_BYTES + TAG_BYTES then Err(Truncated)
      else if index >= U32_MAX then Err(BadChunk)
      else
        var m := c.decrypt(s.dataKey, s.streamNonce, index, false, s.aad, body[..CHUNK_BYTES + TAG_BYTES]);
        if m.None? then Err(BadChunk)
        else
          var rest := OpenedChunks(c, s, body[CHUNK_BYTES + TAG_BYTES..], size - CHUNK_BYTES, index + 1);
          if rest.Err? then rest else Ok(m.value + rest.value)
    else
      if |body| < size + TAG_BYTES then Err(Truncated)
      else
        var m := c.decrypt(s.dataKey, s.streamNonce, index, true, s.aad, body[..size + TAG_BYTES]);
        if m.None? then Err(BadChunk)
        else if |body| > size + TAG_BYTES then Err(TrailingData)
        else Ok(m.value)
  }

  lemma NextChunk(size: nat)
    ensures size > CHUNK_BYTES ==> ChunkCount(size) == ChunkCount(size - CHUNK_BYTES) + 1
    ensures 0 < size <= CHUNK_BYTES ==> ChunkCount(size) == 1
  {
  }

  lemma CipherFacts(c: Primitives, s: Secrets, index: nat, last: bool, m: seq<Byte>)
    requires Correct(c)
    ensures var e := c.encrypt(s.dataKey, s.streamNonce, index, last, s.aad, m);
            |e| == |m| + TAG_BYTES && c.decrypt(s.dataKey, s.streamNonce, index, last, s.aad, e) == Some(m)
    ensures var d := c.decrypt(s.dataKey, s.streamNonce, index, last, s.aad, m);
            d.Some? ==> |d.value| + TAG_BYTES == |m|
  {
  }

  lemma {:induction false} SealedLength(c: Primitives, s: Secrets, plaintext: seq<Byte>, index: nat)
    requires Correct(c) && plaintext != []
    ensures |SealedChunks(c, s, plaintext, index)| == |plaintext| + ChunkCount(|plaintext|) * TAG_BYTES
    decreases |plaintext|
  {
    hide ChunkCount, Correct;
    NextChunk(|plaintext|);
    if |plaintext| > CHUNK_BYTES {
      SealedLength(c, s, plaintext[CHUNK_BYTES..], index + 1);
      CipherFacts(c, s, index, false, plaintext[..CHUNK_BYTES]);
    } else {
      CipherFacts(c, s, index, true, plaintext);
    }
  }

  lemma {:induction false} ChunksRoundTrip(c: Primitives, s: Secrets, plaintext: seq<Byte>, index: nat)
    requires Correct(c) && plaintext != [] && index + ChunkCount(|plaintext|) <= U32_MAX + 1
    ensures OpenedChunks(c, s, SealedChunks(c, s, plaintext, index), |plaintext|, index) == Ok(plaintext)
    decreases |plaintext|
  {
    hide ChunkCount, Correct;
    NextChunk(|plaintext|);
    var body := SealedChunks(c, s, plaintext, index);
    if |plaintext| > CHUNK_BYTES {
      var first, rest := plaintext[..CHUNK_BYTES], plaintext[CHUNK_BYTES..];
      NextChunk(|rest|);
      AtLeastOne(|rest|);
      CipherFacts(c, s, index, false, first);
      ChunksRoundTrip(c, s, rest, index + 1);
      assert plaintext == first + rest;
      assert body[..CHUNK_BYTES + TAG_BYTES] == c.encrypt(s.dataKey, s.streamNonce, index, false, s.aad, first);
      assert body[CHUNK_BYTES + TAG_BYTES..] == SealedChunks(c, s, rest, index + 1);
    } else {
      CipherFacts(c, s, index, true, plaintext);
      assert body[..|plaintext| + TAG_BYTES] == body;
    }
  }

  lemma AtLeastOne(size: nat)
    requires size > 0
    ensures ChunkCount(size) >= 1
  {
  }

  lemma {:induction false} OpenedLength(c: Primitives, s: Secrets, body: seq<Byte>, size: nat, index: nat)
    requires Correct(c) && size > 0 && OpenedChunks(c, s, body, size, index).Ok?
    ensures |OpenedChunks(c, s, body, size, index).value| == size
    ensures |body| == size + ChunkCount(size) * TAG_BYTES
    decreases size
  {
    hide ChunkCount, Correct;
    NextChunk(size);
    if size > CHUNK_BYTES {
      CipherFacts(c, s, index, false, body[..CHUNK_BYTES + TAG_BYTES]);
      OpenedLength(c, s, body[CHUNK_BYTES + TAG_BYTES..], size - CHUNK_BYTES, index + 1);
    } else {
      CipherFacts(c, s, index, true, body[..size + TAG_BYTES]);
    }
  }

  // ---------- Sealing and opening ----------

  /** Encrypts `plaintext` as described, chunk by chunk. It fails when the content is not what the descriptor says,
      and when there are more chunks than the streaming cipher's 32-bit counter can number. */
  method Seal(c: Primitives, s: Secrets, descriptor: Descriptor, plaintext: seq<Byte>) returns (r: Option<seq<Byte>>)
    requires Correct(c) && s.Valid() && descriptor.size <= U64_MAX
    ensures r.Some? <==>
              && |plaintext| == descriptor.size && c.digest(plaintext) == descriptor.digest
              && ChunkCount(descriptor.size) <= U32_MAX + 1
    ensures r.Some? ==> r.value == Envelope(c, s, plaintext)
  {
    hide SealedChunks;
    var wrapped := c.wrap(s.tenantKey, s.wrapNonce, s.aad, s.dataKey);
    if |wrapped| != WRAPPED_KEY_BYTES {
      return None;
    }
    var output := WriteHeader(Header(descriptor.size, s.wrapNonce, s.streamNonce, wrapped));
    var remaining, position, index := descriptor.size, 0, 0;
    ghost var header := output;
    while remaining > CHUNK_BYTES
      invariant 0 <= remaining && position + remaining == descriptor.size && position == index * CHUNK_BYTES && position <= |plaintext|
      invariant index <= U32_MAX
      invariant |plaintext| == descriptor.size ==>
                  output + SealedChunks(c, s, plaintext[position..], index) == header + SealedChunks(c, s, plaintext, 0)
      decreases remaining
    {
      ManyChunks(descriptor.size, index);
      if position + CHUNK_BYTES > |plaintext| || index == U32_MAX {
        return None;
      }
      var chunk := plaintext[position..position + CHUNK_BYTES];
      remaining := remaining - CHUNK_BYTES;
      SealedStep(c, s, plaintext, position, index, output, remaining);
      output := output + c.encrypt(s.dataKey, s.streamNonce, index, false, s.aad, chunk);
      position, index := position + CHUNK_BYTES, index + 1;
    }
    LastChunk(descriptor.size, index);
    if position + remaining > |plaintext| {
      return None;
    }
    SealedEnd(c, s, plaintext, position, index, remaining);
    output := output + c.encrypt(s.dataKey, s.streamNonce, index, true, s.aad, plaintext[position..position + remaining]);
    if position + remaining != |plaintext| || c.digest(plaintext[..position + remaining]) != descriptor.digest {
      assert plaintext[..|plaintext|] == plaintext;
      return None;
    }
    assert plaintext[..|plaintext|] == plaintext;
    return Some(output);
  }

  lemma ManyChunks(size: nat, index: nat)
    requires size - index * CHUNK_BYTES > CHUNK_BYTES
    ensures ChunkCount(size) >= index + 2
  {
  }

  lemma LastChunk(size: nat, index: nat)
    requires 0 <= size - index * CHUNK_BYTES <= CHUNK_BYTES
    ensures ChunkCount(size) <= index + 1
  {
  }

  lemma SealedStep(c: Primitives, s: Secrets, plaintext: seq<Byte>, position: nat, index: nat, output: seq<Byte>, remaining: nat)
    requires position + CHUNK_BYTES <= |plaintext|
    ensures |plaintext| == position + CHUNK_BYTES + remaining && remaining > 0 ==>
              output + SealedChunks(c, s, plaintext[position..], index) ==
              output + c.encrypt(s.dataKey, s.streamNonce, index, false, s.aad, plaintext[position..position + CHUNK_BYTES])
              + SealedChunks(c, s, plaintext[position + CHUNK_BYTES..], index + 1)
  {
    var here := plaintext[position..];
    assert here[..CHUNK_BYTES] == plaintext[position..position + CHUNK_BYTES];
    assert here[CHUNK_BYTES..] == plaintext[position + CHUNK_BYTES..];
  }

  lemma SealedEnd(c: Primitives, s: Secrets, plaintext: seq<Byte>, position: nat, index: nat, remaining: nat)
    requires position + remaining <= |plaintext| && remaining <= CHUNK_BYTES
    ensures |plaintext| == position + remaining ==>
              SealedChunks(c, s, plaintext[position..], index) ==
              c.encrypt(s.dataKey, s.streamNonce, index, true, s.aad, plaintext[position..position + remaining])
  {
    assert |plaintext| == position + remaining ==> plaintext[position..] == plaintext[position..position + remaining];
  }

  /** The keys an envelope is opened with: the data key comes out of the envelope itself. */
  function Unwrapped(c: Primitives, tenantKey: seq<Byte>, aad: string, h: Header): Result<Secrets, Error> {
    var key := c.unwrap(tenantKey, h.wrapNonce, aad, h.wrapped);
    if key.None? || |key.value| != DATA_KEY_BYTES then Err(BadKey)
    else Ok(Secrets(tenantKey, key.value, h.wrapNonce, h.streamNonce, aad))
  }

  /** Opening, as one expression: header, key, chunks, digest. */
  function Opened(c: Primitives, tenantKey: seq<Byte>, aad: string, descriptor: Descriptor, envelope: seq<Byte>): Result<seq<Byte>, Error> {
    var h := ReadHeader(envelope);
    if h.Err? then Err(h.error)
    else if h.value.size != descriptor.size then Err(SizeMismatch)
    else
      var s := Unwrapped(c, tenantKey, aad, h.value);
      if s.Err? then Err(s.error)
      else
        var m := OpenedChunks(c, s.value, envelope[HEADER_BYTES..], descriptor.size, 0);
        if m.Err? then m
        else if c.digest(m.value) != descriptor.digest then Err(DigestMismatch)
        else m
  }

  method Open(c: Primitives, tenantKey: seq<Byte>, aad: string, descriptor: Descriptor, envelope: seq<Byte>)
    returns (r: Result<seq<Byte>, Error>)
    ensures r == Opened(c, tenantKey, aad, descriptor, envelope)
  {
    hide ReadHeader, OpenedChunks;
    var h := ReadHeader(envelope);
    if h.Err? {
      return Err(h.error);
    }
    if h.value.size != descriptor.size {
      return Err(SizeMismatch);
    }
    var s := Unwrapped(c, tenantKey, aad, h.value);
    if s.Err? {
      return Err(s.error);
    }
    HeaderPresent(envelope);
    var body := envelope[HEADER_BYTES..];
    ghost var goal := OpenedChunks(c, s.value, body, descriptor.size, 0);
    var remaining, index := descriptor.size, 0;
    var output: seq<Byte> := [];
    assert goal.Ok? ==> output + goal.value == goal.value;
    while remaining > CHUNK_BYTES
      invariant 0 <= remaining && 0 <= index
      invariant goal == Prefixed(output, OpenedChunks(c, s.value, body, remaining, index))
      decreases remaining
    {
      OpenedStep(c, s.value, body, remaining, index, output);
      if |body| < CHUNK_BYTES + TAG_BYTES {
        return Err(Truncated);
      }
      if index >= U32_MAX {
        return Err(BadChunk);
      }
      var m := c.decrypt(s.value.dataKey, s.value.streamNonce, index, false, aad, body[..CHUNK_BYTES + TAG_BYTES]);
      if m.None? {
        return Err(BadChunk);
      }
      output := output + m.value;
      body := body[CHUNK_BYTES + TAG_BYTES..];
      remaining, index := remaining - CHUNK_BYTES, index + 1;
    }
    OpenedEnd(c, s.value, body, remaining, index);
    if |body| < remaining + TAG_BYTES {
      return Err(Truncated);
    }
    var m := c.decrypt(s.value.dataKey, s.value.streamNonce, index, true, aad, body[..remaining + TAG_BYTES]);
    if m.None? {
      return Err(BadChunk);
    }
    if |body| > remaining + TAG_BYTES {
      return Err(TrailingData);
    }
    output := output + m.value;
    if c.digest(output) != descriptor.digest {
      return Err(DigestMismatch);
    }
    return Ok(output);
  }

  function Prefixed(prefix: seq<Byte>, r: Result<seq<Byte>, Error>): Result<seq<Byte>, Error> {
    if r.Err? then r else Ok(prefix + r.value)
  }

  lemma HeaderPresent(envelope: seq<Byte>)
    requires ReadHeader(envelope).Ok?
    ensures |envelope| >= HEADER_BYTES
  {
  }

  lemma OpenedStep(c: Primitives, s: Secrets, body: seq<Byte>, size: nat, index: nat, prefix: seq<Byte>)
    requires size > CHUNK_BYTES
    ensures Prefixed(prefix, OpenedChunks(c, s, body, size, index)) ==
            if |body| < CHUNK_BYTES + TAG_BYTES then Err(Truncated)
            else if index >= U32_MAX then Err(BadChunk)
            else
              var m := c.decrypt(s.dataKey, s.streamNonce, index, false, s.aad, body[..CHUNK_BYTES + TAG_BYTES]);
              if m.None? then Err(BadChunk)
              else Prefixed(prefix + m.value, OpenedChunks(c, s, body[CHUNK_BYTES + TAG_BYTES..], size - CHUNK_BYTES, index + 1))
  {
    if |body| >= CHUNK_BYTES + TAG_BYTES && index < U32_MAX {
      var m := c.decrypt(s.dataKey, s.streamNonce, index, false, s.aad, body[..CHUNK_BYTES + TAG_BYTES]);
      var rest := OpenedChunks(c, s, body[CHUNK_BYTES + TAG_BYTES..], size - CHUNK_BYTES, index + 1);
      if m.Some? && rest.Ok? {
        assert prefix + (m.value + rest.value) == prefix + m.value + rest.value;
      }
    }
  }

  lemma OpenedEnd(c: Primitives, s: Secrets, body: seq<Byte>, size: nat, index: nat)
    requires size <= CHUNK_BYTES
    ensures OpenedChunks(c, s, body, size, index) ==
            if |body| < size + TAG_BYTES then Err(Truncated)
            else
              var m := c.decrypt(s.dataKey, s.streamNonce, index, true, s.aad, body[..size + TAG_BYTES]);
              if m.None? then Err(BadChunk)
              else if |body| > size + TAG_BYTES then Err(TrailingData)
              else Ok(m.value)
  {
  }

  // ---------- Round trip ----------

  /** Sealing writes exactly the computed number of bytes, and opening with the same key, associated data and
      descriptor gives the content back. */
  lemma EnvelopeRoundTrip(c: Primitives, s: Secrets, descriptor: Descriptor, plaintext: seq<Byte>)
    requires Correct(c) && s.Valid() && plaintext != []
    requires |plaintext| == descriptor.size && c.digest(plaintext) == descriptor.digest
    requires ChunkCount(descriptor.size) <= U32_MAX + 1
    ensures |Envelope(c, s, plaintext)| == EnvelopeBytes(|plaintext|)
    ensures MaximumEnvelopeBytes(|plaintext|) == Ok(|Envelope(c, s, plaintext)|)
    ensures Opened(c, s.tenantKey, s.aad, descriptor, Envelope(c, s, plaintext)) == Ok(plaintext)
  {
    hide SealedChunks, OpenedChunks, WriteHeader, ReadHeader, BigEndian;
    Numbered(descriptor.size);
    var h := Header(|plaintext|, s.wrapNonce, s.streamNonce, c.wrap(s.tenantKey, s.wrapNonce, s.aad, s.dataKey));
    var body := SealedChunks(c, s, plaintext, 0);
    HeaderRoundTrip(h, body);
    SealedLength(c, s, plaintext, 0);
    MaximumIsExact(|plaintext|);
    ChunksRoundTrip(c, s, plaintext, 0);
    assert (WriteHeader(h) + body)[HEADER_BYTES..] == body;
  }

  lemma Numbered(size: nat)
    requires ChunkCount(size) <= U32_MAX + 1
    ensures size <= U64_MAX && EnvelopeBytes(size) <= U64_MAX
  {
  }

  /** Whatever opens is exactly the described content, and the envelope holds nothing else. */
  lemma OpenedIsDescribed(c: Primitives, tenantKey: seq<Byte>, aad: string, descriptor: Descriptor, envelope: seq<Byte>)
    requires Correct(c) && descriptor.size > 0 && Opened(c, tenantKey, aad, descriptor, envelope).Ok?
    ensures var plaintext := Opened(c, tenantKey, aad, descriptor, envelope).value;
            && |plaintext| == descriptor.size && c.digest(plaintext) == descriptor.digest
            && |envelope| == EnvelopeBytes(descriptor.size)
  {
    hide OpenedChunks, ReadHeader;
    HeaderPresent(envelope);
    var s := Unwrapped(c, tenantKey, aad, ReadHeader(envelope).value).value;
    OpenedLength(c, s, envelope[HEADER_BYTES..], descriptor.size, 0);
  }
}
