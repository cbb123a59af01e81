/** How data packets are protected: AEAD and CBC layouts over ciphers known only by their contracts. */
module DataCiphers {
  import opened Bytes
  import opened Options

  const TAG_LEN: nat := 16
  const IV_LEN: nat := 16

  datatype Cipher = Aes256Gcm | Aes128Gcm | Aes256Cbc | Aes128Cbc
  {
    predicate IsAead() { Aes256Gcm? || Aes128Gcm? }
    function KeyLen(): nat { if Aes256Gcm? || Aes256Cbc? then 32 else 16 }
    function IvLen(): nat { if IsAead() then 12 else 16 }
  }

  datatype Auth = Sha1 | Sha256 | Sha512
  {
    function Size(): nat { match this case Sha1 => 20 case Sha256 => 32 case Sha512 => 64 }
  }

  datatype Error = ShortKey | ShortMacKey | ShortPacket | HmacMismatch | CannotOpen | ShortPayload

  datatype Opened = Plain(id: u32, plaintext: seq<byte>) | Failure(error: Error)

  /** The primitives, by key (and cipher, which selects the algorithm). */
  datatype Suite = Suite(
    seal: (Cipher, seq<byte>, seq<byte>, seq<byte>, seq<byte>) -> seq<byte>,
    unseal: (Cipher, seq<byte>, seq<byte>, seq<byte>, seq<byte>) -> Option<seq<byte>>,
    encrypt: (Cipher, seq<byte>, seq<byte>, seq<byte>) -> seq<byte>,
    decrypt: (Cipher, seq<byte>, seq<byte>, seq<byte>) -> Option<seq<byte>>,
    hmac: (Auth, seq<byte>, seq<byte>) -> seq<byte>)
  {
    /** Authenticated encryption appends a tag and is undone under the same key, nonce and header. */
    ghost predicate Seals()
    {
      && (forall c, k, n, a, m :: |seal(c, k, n, a, m)| == |m| + TAG_LEN)
      && (forall c, k, n, a, m :: unseal(c, k, n, a, seal(c, k, n, a, m)) == Some(m))
    }

    /** CBC mode pads to at least one block and is undone under the same key and vector. */
    ghost predicate Encrypts()
    {
      && (forall c, k, v, m :: |encrypt(c, k, v, m)| >= 16)
      && (forall c, k, v, m :: decrypt(c, k, v, encrypt(c, k, v, m)) == Some(m))
      && (forall auth, k, m :: |hmac(auth, k, m)| == auth.Size())
    }
  }

  /** The contracts can be met: a tag and a block of zeros instead of real ones. */
  function ToySuite(): Suite
  {
    Suite((c, k, n, a, m) => m + seq(TAG_LEN, _ => 0),
          (c, k, n, a, s) => if |s| < TAG_LEN then None else Some(s[..|s| - TAG_LEN]),
          (c, k, v, m) => seq(16, _ => 0) + m,
          (c, k, v, s) => if |s| < 16 then None else Some(s[16..]),
          (auth: Auth, k, m) => seq(auth.Size(), _ => 0))
  }

  lemma ContractsCanBeMet()
    ensures ToySuite().Seals() && ToySuite().Encrypts()
  {
    var toy := ToySuite();
    forall c, k, n, a, m
      ensures toy.unseal(c, k, n, a, toy.seal(c, k, n, a, m)) == Some(m)
    {
      assert (m + seq(TAG_LEN, _ => 0))[..|m|] == m;
    }
    forall c, k, v, m
      ensures toy.decrypt(c, k, v, toy.encrypt(c, k, v, m)) == Some(m)
    {
      assert (seq(16, _ => 0) + m)[16..] == m;
    }
  }

  // ---------------------------------------------------------------- layouts

  /** The first bytes of `bytes`, filled up with zeros. */
  function Fit(bytes: seq<byte>, n: nat): (fit: seq<byte>)
    ensures |fit| == n
  {
    if |bytes| < n then bytes + Zeros(n - |bytes|) else bytes[..n]
  }

  function AeadNonce(implicitIv: seq<byte>, id: u32): (nonce: seq<byte>)
    ensures |nonce| == 12
  {
    U32(id) + Fit(implicitIv, 8)
  }

  function TagFirst(sealed: seq<byte>): seq<byte>
    requires |sealed| >= TAG_LEN
  {
    sealed[|sealed| - TAG_LEN..] + sealed[..|sealed| - TAG_LEN]
  }

  function TagLast(body: seq<byte>): seq<byte>
    requires |body| >= TAG_LEN
  {
    body[TAG_LEN..] + body[..TAG_LEN]
  }

  lemma TagsUndoEachOther(bytes: seq<byte>)
    requires |bytes| >= TAG_LEN
    ensures TagLast(TagFirst(bytes)) == bytes && TagFirst(TagLast(bytes)) == bytes
  {
  }

  /** Compares without stopping early: the differences of all bytes are collected in one. */
  method ConstantTimeEq(a: seq<byte>, b: seq<byte>) returns (same: bool)
    ensures same <==> a == b
  {
    if |a| != |b| {
      return false;
    }
    var diff: byte := 0;
    for n := 0 to |a|
      invariant diff == 0 <==> a[..n] == b[..n]
    {
      hide Xor, Or;
      DifferenceGrows(diff, a[n], b[n]);
      diff := Or(diff, Xor(a[n], b[n]));
      assert a[..n + 1] == a[..n] + [a[n]] && b[..n + 1] == b[..n] + [b[n]];
      assert a[..n + 1] == b[..n + 1] <==> a[..n] == b[..n] && a[n] == b[n];
    }
    assert a[..|a|] == a && b[..|b|] == b;
    return diff == 0;
  }

  lemma DifferenceGrows(diff: byte, x: byte, y: byte)
    ensures Or(diff, Xor(x, y)) == 0 <==> diff == 0 && x == y
  {
    assert Pow2(8) == 256;
    XorBitsZero(x, y, 8);
    OrBitsZero(diff, Xor(x, y), 8);
  }

  // ---------------------------------------------------------------- data ciphers

  datatype DataCipher = DataCipher(cipher: Cipher, auth: Auth, key: seq<byte>, mac: seq<byte>, implicitIv: seq<byte>)
  {
    predicate Valid()
    {
      && |key| == cipher.KeyLen()
      && (cipher.IsAead() ==> |implicitIv| == 8)
      && (!cipher.IsAead() ==> |mac| >= auth.Size())
    }

    function MacKey(): seq<byte>
      requires Valid() && !cipher.IsAead()
    {
      mac[..auth.Size()]
    }

    /** `iv` is the random vector a CBC packet starts with. */
    function Encrypt(suite: Suite, header: seq<byte>, id: u32, plaintext: seq<byte>, iv: seq<byte>): seq<byte>
      requires Valid() && suite.Seals()
    {
      if cipher.IsAead() then
        TagFirst(suite.seal(cipher, key, AeadNonce(implicitIv, id), header, plaintext))
      else
        var ciphertext := suite.encrypt(cipher, key, iv, U32(id) + plaintext);
        suite.hmac(auth, MacKey(), iv + ciphertext) + iv + ciphertext
    }

    function DecryptAead(suite: Suite, header: seq<byte>, body: seq<byte>): Opened
      requires Valid() && |header| >= 4
    {
      if |body| < TAG_LEN then Failure(ShortPacket)
      else
        var id := FromU32(header[|header| - 4..]);
        match suite.unseal(cipher, key, AeadNonce(implicitIv, id), header, TagLast(body))
        case None => Failure(CannotOpen)
        case Some(plaintext) => Plain(id, plaintext)
    }

    function DecryptCbc(suite: Suite, body: seq<byte>): Opened
      requires Valid() && !cipher.IsAead()
    {
      var n := auth.Size();
      if |body| < n + IV_LEN + 16 then Failure(ShortPacket)
      else
        var iv, ciphertext := body[n..n + IV_LEN], body[n + IV_LEN..];
        if suite.hmac(auth, MacKey(), iv + ciphertext) != body[..n] then Failure(HmacMismatch)
        else
          match suite.decrypt(cipher, key, iv, ciphertext)
          case None => Failure(CannotOpen)
          case Some(plaintext) =>
            if |plaintext| < 4 then Failure(ShortPayload) else Plain(FromU32(plaintext[..4]), plaintext[4..])
    }

    function Decrypt(suite: Suite, header: seq<byte>, body: seq<byte>): Opened
      requires Valid() && |header| >= 4
    {
      if cipher.IsAead() then DecryptAead(suite, header, body) else DecryptCbc(suite, body)
    }

    /**
     * What a packet has to be to open, in terms of the primitives. CBC: its first bytes are the HMAC of
     * everything after them, and what the vector and ciphertext in it decrypt to begins with the id.
     * AEAD: with the tag moved to the end it opens under its header, whose last four bytes are the id
     * and begin the nonce.
     */
    predicate OpensTo(suite: Suite, header: seq<byte>, body: seq<byte>, id: u32, plaintext: seq<byte>)
      requires Valid() && |header| >= 4
    {
      if cipher.IsAead() then
        && |body| >= 16
        && IsNumber(header[|header| - 4..], id)
        && suite.unseal(cipher, key, header[|header| - 4..] + implicitIv, header, body[16..] + body[..16]) == Some(plaintext)
      else
        var n := auth.Size();
        && |body| >= n + 32
        && body[..n] == suite.hmac(auth, mac[..n], body[n..])
        && var inner := suite.decrypt(cipher, key, body[n..n + 16], body[n + 16..]);
           inner.Some? && |inner.value| >= 4 && IsNumber(inner.value[..4], id) && plaintext == inner.value[4..]
    }

    /** The bytes with the tag in front: a tag that fits, and what it is the tag of. */
    predicate IsSealed(
      suite: Suite, header: seq<byte>, id: u32, plaintext: seq<byte>, iv: seq<byte>, body: seq<byte>)
      requires Valid()
    {
      if cipher.IsAead() then
        && |body| >= 16
        && body[16..] + body[..16] == suite.seal(cipher, key, U32(id) + implicitIv, header, plaintext)
      else
        var n := auth.Size();
        && |body| >= n
        && body[n..] == iv + suite.encrypt(cipher, key, iv, U32(id) + plaintext)
        && body[..n] == suite.hmac(auth, mac[..n], body[n..])
    }

    /** The steps of the program, with the comparison it uses. */
    method Open(suite: Suite, header: seq<byte>, body: seq<byte>) returns (result: Opened)
      requires Valid() && |header| >= 4
      ensures result == Decrypt(suite, header, body)
      ensures forall id, plaintext :: result == Plain(id, plaintext) <==> OpensTo(suite, header, body, id, plaintext)
      ensures var n := auth.Size();
              !cipher.IsAead() && |body| >= n + 32 && body[..n] != suite.hmac(auth, mac[..n], body[n..])
              ==> result == Failure(HmacMismatch)
    {
      DecryptIsAll(this, suite, header, body);
      if cipher.IsAead() {
        return DecryptAead(suite, header, body);
      }
      var n := auth.Size();
      if |body| < n + IV_LEN + 16 {
        return Failure(ShortPacket);
      }
      var tag, rest := body[..n], body[n..];
      var iv, ciphertext := rest[..IV_LEN], rest[IV_LEN..];
      assert iv == body[n..n + IV_LEN] && ciphertext == body[n + IV_LEN..] && iv + ciphertext == rest;
      var expected := suite.hmac(auth, MacKey(), iv + ciphertext);
      var same := ConstantTimeEq(expected, tag);
      if !same {
        return Failure(HmacMismatch);
      }
      match suite.decrypt(cipher, key, iv, ciphertext) {
        case None => return Failure(CannotOpen);
        case Some(plaintext) =>
          if |plaintext| < 4 {
            return Failure(ShortPayload);
          }
          return Plain(FromU32(plaintext[..4]), plaintext[4..]);
      }
    }
  }

  datatype Created = Created(cipher: DataCipher) | NotCreated(error: Error)

  function New(cipher: Cipher, auth: Auth, key: seq<byte>, mac: seq<byte>): (r: Created)
    ensures r.Created? <==> |key| >= cipher.KeyLen() && (cipher.IsAead() || |mac| >= auth.Size())
    ensures |key| < cipher.KeyLen() ==> r == NotCreated(ShortKey)
    ensures r.Created? ==>
      && r.cipher.Valid() && r.cipher.cipher == cipher && r.cipher.auth == auth && r.cipher.mac == mac
      && |r.cipher.key| == cipher.KeyLen() && r.cipher.key <= key
    ensures r.Created? ==>
      var iv := r.cipher.implicitIv;
      && |iv| == (if cipher.IsAead() then 8 else 0)
      && forall k :: 0 <= k < |iv| ==> iv[k] == if k < |mac| then mac[k] else 0
  {
    if |key| < cipher.KeyLen() then NotCreated(ShortKey)
    else if !cipher.IsAead() && |mac| < auth.Size() then NotCreated(ShortMacKey)
    else
      var iv := if cipher.IsAead() then Fit(mac, cipher.IvLen() - 4) else [];
      Created(DataCipher(cipher, auth, key[..cipher.KeyLen()], mac, iv))
  }

  // ---------------------------------------------------------------- what opens

  /** Four bytes, the most significant first, as a number. */
  predicate IsNumber(b: seq<byte>, n: u32)
    requires |b| == 4
  {
    n == (b[0] as int) * 0x100_0000 + (b[1] as int) * 0x1_0000 + (b[2] as int) * 0x100 + b[3]
  }

  lemma NumberIs(b: seq<byte>, n: u32)
    requires |b| == 4
    ensures IsNumber(b, n) <==> FromU32(b) == n
    ensures IsNumber(b, n) <==> U32(n) == b
  {
    BigEndian(n, b);
  }

  /** A packet opens to an id and a plaintext exactly when the primitives say so of its bytes. */
  lemma DecryptIs(dc: DataCipher, suite: Suite, header: seq<byte>, body: seq<byte>, id: u32, plaintext: seq<byte>)
    requires dc.Valid() && |header| >= 4
    ensures dc.Decrypt(suite, header, body) == Plain(id, plaintext) <==> dc.OpensTo(suite, header, body, id, plaintext)
  {
    if dc.cipher.IsAead() {
      DecryptAeadIs(dc, suite, header, body, id, plaintext);
    } else {
      DecryptCbcIs(dc, suite, header, body, id, plaintext);
    }
  }

  lemma DecryptAeadIs(dc: DataCipher, suite: Suite, header: seq<byte>, body: seq<byte>, id: u32, plaintext: seq<byte>)
    requires dc.Valid() && |header| >= 4 && dc.cipher.IsAead()
    ensures dc.DecryptAead(suite, header, body) == Plain(id, plaintext) <==> dc.OpensTo(suite, header, body, id, plaintext)
  {
    hide U32, FromU32, IsNumber;
    var last := header[|header| - 4..];
    NumberIs(last, id);
    NumberIs(last, FromU32(last));
    assert dc.implicitIv[..8] == dc.implicitIv;
  }

  lemma DecryptCbcIs(dc: DataCipher, suite: Suite, header: seq<byte>, body: seq<byte>, id: u32, plaintext: seq<byte>)
    requires dc.Valid() && |header| >= 4 && !dc.cipher.IsAead()
    ensures dc.DecryptCbc(suite, body) == Plain(id, plaintext) <==> dc.OpensTo(suite, header, body, id, plaintext)
  {
    hide U32, FromU32, IsNumber;
    var n := dc.auth.Size();
    if |body| >= n + 32 {
      var iv, ciphertext := body[n..n + 16], body[n + 16..];
      assert iv + ciphertext == body[n..];
      if suite.hmac(dc.auth, dc.MacKey(), iv + ciphertext) == body[..n] {
        match suite.decrypt(dc.cipher, dc.key, iv, ciphertext)
        case None =>
        case Some(inner) =>
          if |inner| >= 4 { NumberIs(inner[..4], id); }
      }
    }
  }

  lemma DecryptIsAll(dc: DataCipher, suite: Suite, header: seq<byte>, body: seq<byte>)
    requires dc.Valid() && |header| >= 4
    ensures forall id, plaintext ::
      dc.Decrypt(suite, header, body) == Plain(id, plaintext) <==> dc.OpensTo(suite, header, body, id, plaintext)
  {
    forall id: u32, plaintext: seq<byte>
      ensures dc.Decrypt(suite, header, body) == Plain(id, plaintext) <==> dc.OpensTo(suite, header, body, id, plaintext)
    {
      DecryptIs(dc, suite, header, body, id, plaintext);
    }
  }

  /** What is sent is sealed with its own id, header and vector. */
  lemma EncryptIs(dc: DataCipher, suite: Suite, header: seq<byte>, id: u32, plaintext: seq<byte>, iv: seq<byte>)
    requires dc.Valid() && suite.Seals() && suite.Encrypts()
    ensures dc.IsSealed(suite, header, id, plaintext, iv, dc.Encrypt(suite, header, id, plaintext, iv))
  {
    hide U32;
    if dc.cipher.IsAead() {
      var sealed := suite.seal(dc.cipher, dc.key, AeadNonce(dc.implicitIv, id), header, plaintext);
      TagsUndoEachOther(sealed);
      assert dc.implicitIv[..8] == dc.implicitIv;
    } else {
      var rest := iv + suite.encrypt(dc.cipher, dc.key, iv, U32(id) + plaintext);
      var tag := suite.hmac(dc.auth, dc.MacKey(), rest);
      assert dc.Encrypt(suite, header, id, plaintext, iv) == tag + rest;
      assert (tag + rest)[dc.auth.Size()..] == rest;
    }
  }

  // ---------------------------------------------------------------- round trip and nonces

  /** Whatever was encrypted under an id is opened to that id and plaintext, in both layouts. */
  lemma DecryptUndoesEncrypt(
    dc: DataCipher, suite: Suite, prefix: seq<byte>, id: u32, plaintext: seq<byte>, iv: seq<byte>)
    requires dc.Valid() && suite.Seals() && suite.Encrypts() && |iv| == IV_LEN
    ensures var header := prefix + U32(id);
            dc.Decrypt(suite, header, dc.Encrypt(suite, header, id, plaintext, iv)) == Plain(id, plaintext)
  {
    hide U32, FromU32, AeadNonce;
    var header := prefix + U32(id);
    U32RoundTrip(id);
    if dc.cipher.IsAead() {
      assert header[|header| - 4..] == U32(id);
      var sealed := suite.seal(dc.cipher, dc.key, AeadNonce(dc.implicitIv, id), header, plaintext);
      TagsUndoEachOther(sealed);
    } else {
      var n := dc.auth.Size();
      var inner := U32(id) + plaintext;
      var ciphertext := suite.encrypt(dc.cipher, dc.key, iv, inner);
      var tag := suite.hmac(dc.auth, dc.MacKey(), iv + ciphertext);
      var body := tag + iv + ciphertext;
      assert body[..n] == tag && body[n..n + IV_LEN] == iv && body[n + IV_LEN..] == ciphertext;
      assert inner[..4] == U32(id) && inner[4..] == plaintext;
    }
  }

  /** Under one implicit vector, nonces coincide exactly for equal packet ids. */
  lemma NonceIdentifiesPacket(implicitIv: seq<byte>, id1: u32, id2: u32)
    ensures AeadNonce(implicitIv, id1) == AeadNonce(implicitIv, id2) <==> id1 == id2
  {
    hide U32, FromU32, Fit;
    U32RoundTrip(id1);
    U32RoundTrip(id2);
    assert AeadNonce(implicitIv, id1)[..4] == U32(id1);
    assert AeadNonce(implicitIv, id2)[..4] == U32(id2);
  }
}
