/** The sealed-chunk format (vault-core/src/chunk_format.rs) and its engine
    (vault-core/src/encryption.rs, `XChaChaChunkEngine`) over an ideal AEAD. */
module SealedChunks {
  import opened Words
  import opened Wrappers
  import opened Aead
  import Utf8

  const NonceSize := 24
  const Overhead := 41

  // ----- Chunk identity

  datatype VaultError = Encryption | Decryption | BadKey

  const V3: Byte := 3

  datatype ChunkAad = ChunkAad(repoUid: string, chunkName: string, keyVersion: u32, streamOffset: u64, size: u64) {

    /** `check`: neither string holds a NUL. */
    predicate Check() {
      0 !in Utf8.Encode(repoUid) && 0 !in Utf8.Encode(chunkName)
    }

    /** `canonical_aad_bytes` */
    function Canonical(): Bytes {
      Utf8.Encode(repoUid) + [0] + Utf8.Encode(chunkName) + [0]
      + LittleEndian(keyVersion, 4) + LittleEndian(streamOffset, 8) + LittleEndian(size, 8)
    }
  }

  /** `ChunkAad::new` */
  function NewAad(repoUid: string, chunkName: string, keyVersion: u32, streamOffset: u64, size: u64)
    : Result<ChunkAad, VaultError>
  {
    var aad := ChunkAad(repoUid, chunkName, keyVersion, streamOffset, size);
    if aad.Check() then Ok(aad) else Err(Encryption)
  }

  /** `ChunkAad::content`: the offset is fixed to 0, so a blob stored once serves every position. */
  function ContentAad(repoUid: string, chunkName: string, keyVersion: u32, size: u64): Result<ChunkAad, VaultError> {
    NewAad(repoUid, chunkName, keyVersion, 0, size)
  }

  function FirstZero(bs: Bytes): nat {
    if bs == [] || bs[0] == 0 then 0 else 1 + FirstZero(bs[1..])
  }

  lemma {:induction false} FirstZeroAfter(a: Bytes, x: Bytes)
    requires 0 !in a
    ensures FirstZero(a + [0] + x) == |a|
  {
    if a == [] {
      assert (a + [0] + x)[0] == 0;
    } else {
      FirstZeroAfter(a[1..], x);
      assert (a + [0] + x)[0] == a[0] && (a + [0] + x)[1..] == a[1..] + [0] + x;
    }
  }

  /** NUL-free text before a NUL is determined by the bytes, whatever follows. */
  lemma SplitAtZero(a: Bytes, x: Bytes, b: Bytes, y: Bytes)
    requires 0 !in a && 0 !in b && a + [0] + x == b + [0] + y
    ensures a == b && x == y
  {
    FirstZeroAfter(a, x);
    FirstZeroAfter(b, y);
    var s, t := a + [0] + x, b + [0] + y;
    assert s[..|a|] == a && t[..|b|] == b;
    assert s[|a| + 1..] == x && t[|b| + 1..] == y;
  }

  /** The identity encoding is injective on NUL-free identities. */
  lemma CanonicalInjective(a: ChunkAad, b: ChunkAad)
    requires a.Check() && b.Check()
    ensures a.Canonical() == b.Canonical() <==> a == b
  {
    if a.Canonical() == b.Canonical() {
      hide LittleEndian, Utf8.Encode;
      var numsA, numsB := Numbers(a), Numbers(b);
      var restA := Utf8.Encode(a.chunkName) + [0] + numsA;
      var restB := Utf8.Encode(b.chunkName) + [0] + numsB;
      CanonicalLayout(a);
      CanonicalLayout(b);
      SplitAtZero(Utf8.Encode(a.repoUid), restA, Utf8.Encode(b.repoUid), restB);
      SplitAtZero(Utf8.Encode(a.chunkName), numsA, Utf8.Encode(b.chunkName), numsB);
      Utf8.EncodeInjective(a.repoUid, b.repoUid);
      Utf8.EncodeInjective(a.chunkName, b.chunkName);
      NumbersInjective(a, b);
    }
  }

  function Numbers(a: ChunkAad): Bytes {
    LittleEndian(a.keyVersion, 4) + LittleEndian(a.streamOffset, 8) + LittleEndian(a.size, 8)
  }

  lemma CanonicalLayout(a: ChunkAad)
    ensures a.Canonical() == Utf8.Encode(a.repoUid) + [0] + (Utf8.Encode(a.chunkName) + [0] + Numbers(a))
  {
    hide LittleEndian, Utf8.Encode;
  }

  /** The layout, byte by byte: the uid, a zero, the name, a zero, then key version, offset and size with
      their least significant bytes first, in four, eight and eight bytes. */
  lemma CanonicalBytes(a: ChunkAad, i: nat)
    ensures var bytes, uid, name := a.Canonical(), Utf8.Encode(a.repoUid), Utf8.Encode(a.chunkName);
      && |bytes| == |uid| + |name| + 22
      && (i < |uid| ==> bytes[i] == uid[i]) && bytes[|uid|] == 0
      && (i < |name| ==> bytes[|uid| + 1 + i] == name[i]) && bytes[|uid| + 1 + |name|] == 0
      && (i < 4 ==> bytes[|uid| + |name| + 2 + i] == a.keyVersion / Pow256(i) % 256)
      && (i < 8 ==> bytes[|uid| + |name| + 6 + i] == a.streamOffset / Pow256(i) % 256)
      && (i < 8 ==> bytes[|uid| + |name| + 14 + i] == a.size / Pow256(i) % 256)
  {
    hide LittleEndian, Utf8.Encode, Pow256;
    if i < 4 {
      LittleEndianIs(a.keyVersion, 4, i);
    }
    if i < 8 {
      LittleEndianIs(a.streamOffset, 8, i);
      LittleEndianIs(a.size, 8, i);
    }
  }

  /** A content chunk's identity: its name and size, and offset 0 wherever in the stream it stands. */
  lemma ContentBindsOffsetZero(repoUid: string, chunkName: string, keyVersion: u32, size: u64)
    ensures ContentAad(repoUid, chunkName, keyVersion, size) ==
      if '\0' in repoUid || '\0' in chunkName then Err(Encryption)
      else Ok(ChunkAad(repoUid, chunkName, keyVersion, 0, size))
  {
    Utf8.ZeroOnlyInNul(repoUid);
    Utf8.ZeroOnlyInNul(chunkName);
  }

  lemma NumbersInjective(a: ChunkAad, b: ChunkAad)
    requires Numbers(a) == Numbers(b)
    ensures a.keyVersion == b.keyVersion && a.streamOffset == b.streamOffset && a.size == b.size
  {
    hide LittleEndian;
    var x, y := Numbers(a), Numbers(b);
    assert x[..4] == LittleEndian(a.keyVersion, 4) && y[..4] == LittleEndian(b.keyVersion, 4);
    assert x[4..12] == LittleEndian(a.streamOffset, 8) && y[4..12] == LittleEndian(b.streamOffset, 8);
    assert x[12..] == LittleEndian(a.size, 8) && y[12..] == LittleEndian(b.size, 8);
    assert Pow256(4) == W32;
    assert Pow256(8) == W64;
    LittleEndianInjective(a.keyVersion, b.keyVersion, 4);
    LittleEndianInjective(a.streamOffset, b.streamOffset, 8);
    LittleEndianInjective(a.size, b.size, 8);
  }

  /** Without the NUL check distinct identities would share encodings: a NUL can move from one
      field's text to the separator and back. */
  lemma NulMakesIdentitiesCollide(u: string, m: string, n: string, keyVersion: u32, size: u64)
    ensures var a := ChunkAad(u, m + "\0" + n, keyVersion, 0, size);
      var b := ChunkAad(u + "\0" + m, n, keyVersion, 0, size);
      a != b && a.Canonical() == b.Canonical() && !a.Check() && !b.Check()
  {
    var a := ChunkAad(u, m + "\0" + n, keyVersion, 0, size);
    var b := ChunkAad(u + "\0" + m, n, keyVersion, 0, size);
    AroundNul(m, n);
    AroundNul(u, m);
    CanonicalLayout(a);
    CanonicalLayout(b);
    hide Utf8.Encode, ChunkAad.Canonical, LittleEndian;
    RegroupAroundZero(Utf8.Encode(u), Utf8.Encode(m), Utf8.Encode(n), Numbers(a));
    assert |u + "\0" + m| > |u|;
  }

  lemma AroundNul(s: string, t: string)
    ensures Utf8.Encode(s + "\0" + t) == Utf8.Encode(s) + [0] + Utf8.Encode(t)
    ensures 0 in Utf8.Encode(s + "\0" + t)
  {
    Utf8.EncodeAppend(s, "\0");
    Utf8.EncodeAppend(s + "\0", t);
    assert "\0"[1..] == "";
    assert Utf8.Encode("\0") == [0];
    hide Utf8.Encode;
    assert (Utf8.Encode(s) + [0] + Utf8.Encode(t))[|Utf8.Encode(s)|] == 0;
  }

  lemma RegroupAroundZero(u: Bytes, m: Bytes, n: Bytes, tail: Bytes)
    ensures u + [0] + (m + [0] + n + [0] + tail) == u + [0] + m + [0] + (n + [0] + tail)
  {
  }

  // ----- Version dispatch

  datatype ChunkFormatVersion = RepoUidKeyVersionV3

  /** `parse_version` */
  function ParseVersion(b: Byte): Result<ChunkFormatVersion, VaultError> {
    if b == V3 then Ok(RepoUidKeyVersionV3) else Err(Decryption)
  }

  /** `version_of` */
  function VersionOf(chunk: Bytes): Result<ChunkFormatVersion, VaultError> {
    if chunk == [] then Err(Decryption) else ParseVersion(chunk[0])
  }

  // ----- The engine

  datatype ChunkCipher = ChunkCipher(cipher: Cipher, key: Bytes) {

    /** `cipher_aad`: the version byte, then the canonical identity. */
    function CipherAad(version: Byte, aad: ChunkAad): Result<Bytes, VaultError> {
      if aad.Check() then Ok([version] + aad.Canonical()) else Err(Encryption)
    }

    /** `encrypt_with_nonce`; `Recorded` is the entry this adds to the AEAD's log. */
    function Encrypt(plaintext: Bytes, nonce: Bytes, aad: ChunkAad): Result<Bytes, VaultError> {
      match CipherAad(V3, aad)
      case Err(e) => Err(e)
      case Ok(ca) => Ok([V3] + nonce + cipher.seal(key, nonce, ca, plaintext))
    }

    function Recorded(plaintext: Bytes, nonce: Bytes, aad: ChunkAad): Sealing {
      Sealing(key, nonce, [V3] + aad.Canonical(), plaintext)
    }

    /** `decrypt_with_aad` */
    function Decrypt(log: Log, data: Bytes, aad: ChunkAad): Result<Bytes, VaultError> {
      match VersionOf(data)
      case Err(e) => Err(e)
      case Ok(_) =>
        if |data| < Overhead then Err(Decryption)
        else match CipherAad(data[0], aad)
          case Err(e) => Err(e)
          case Ok(ca) =>
            match cipher.Open(log, key, data[1..1 + NonceSize], ca, data[1 + NonceSize..])
            case Some(plaintext) => Ok(plaintext)
            case None => Err(Decryption)
    }

    /** The layout of a sealed blob: version, nonce, ciphertext and tag, 41 bytes over the plaintext. */
    lemma SealedLayout(plaintext: Bytes, nonce: Bytes, aad: ChunkAad)
      requires cipher.Lawful() && |nonce| == NonceSize && aad.Check()
      ensures var blob := Encrypt(plaintext, nonce, aad).value;
        && |blob| == |plaintext| + Overhead
        && blob[0] == 3 && blob[1..25] == nonce
        && blob[25..] == cipher.seal(key, nonce, [3] + aad.Canonical(), plaintext)
    {
      hide ChunkAad.Canonical;
      var ct := cipher.seal(key, nonce, [V3] + aad.Canonical(), plaintext);
      var blob := [V3] + nonce + ct;
      assert blob[1..1 + NonceSize] == nonce && blob[1 + NonceSize..] == ct;
    }

    /** Round trip: a sealed blob opens under its own identity to its own plaintext. */
    lemma SealThenOpen(log: Log, plaintext: Bytes, nonce: Bytes, aad: ChunkAad)
      requires cipher.Lawful() && |nonce| == NonceSize && aad.Check()
      requires Recorded(plaintext, nonce, aad) in log
      ensures Decrypt(log, Encrypt(plaintext, nonce, aad).value, aad) == Ok(plaintext)
    {
      hide ChunkAad.Canonical, ChunkAad.Check;
      SealedLayout(plaintext, nonce, aad);
      cipher.OpenOfSealed(log, key, nonce, [V3] + aad.Canonical(), plaintext);
    }

    /** A blob sealed under identity `a`, with a nonce used once under its key, opens under `b` exactly
        when `b` is `a`, and then to its own plaintext. */
    lemma OpensIffSameIdentity(log: Log, plaintext: Bytes, nonce: Bytes, a: ChunkAad, b: ChunkAad)
      requires cipher.Lawful() && |nonce| == NonceSize && a.Check()
      requires Recorded(plaintext, nonce, a) in log
      requires forall s :: s in log && s.key == key && s.nonce == nonce ==> s == Recorded(plaintext, nonce, a)
      ensures Decrypt(log, Encrypt(plaintext, nonce, a).value, b)
           == if a == b then Ok(plaintext) else if b.Check() then Err(Decryption) else Err(Encryption)
    {
      SealThenOpen(log, plaintext, nonce, a);
      SealedLayout(plaintext, nonce, a);
      if b.Check() && a != b {
        CanonicalInjective(a, b);
        hide ChunkAad.Canonical, ChunkAad.Check;
        var x, y := [V3] + a.Canonical(), [V3] + b.Canonical();
        assert x[1..] == a.Canonical() && y[1..] == b.Canonical();
      }
    }

    /** Whatever bytes are offered, an accepted blob is one that was sealed under this key and exactly
        this identity; in particular its first byte is 3. */
    lemma AcceptedWasSealed(log: Log, data: Bytes, aad: ChunkAad)
      requires cipher.Lawful() && Decrypt(log, data, aad).Ok?
      ensures data != [] && data[0] == 3 && aad.Check()
      ensures var m := Decrypt(log, data, aad).value;
        && |data| == |m| + Overhead
        && Recorded(m, data[1..1 + NonceSize], aad) in log
        && Encrypt(m, data[1..1 + NonceSize], aad) == Ok(data)
    {
      hide ChunkAad.Canonical, ChunkAad.Check;
      assert data == [data[0]] + data[1..1 + NonceSize] + data[1 + NonceSize..];
    }

    /** Every version byte but 3 is refused before anything else is looked at. */
    lemma OtherVersionsRefused(log: Log, data: Bytes, aad: ChunkAad)
      requires data == [] || data[0] != 3
      ensures Decrypt(log, data, aad) == Err(Decryption)
    {
    }
  }
}
