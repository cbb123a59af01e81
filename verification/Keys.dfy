/** Key expansion: the pseudorandom function of TLS 1.0 and the data keys cut from its output. */
module KeyExpansion {
  import opened Bytes
  import opened DataCiphers

  const KEY_LEN: nat := 64
  const MASTER_LEN: nat := 48
  const KEY2_LEN: nat := 4 * KEY_LEN

  /** A keyed hash by its secret and its input. */
  datatype Digest = Digest(size: nat, mac: (seq<byte>, seq<byte>) -> seq<byte>)
  {
    ghost predicate Valid()
    {
      size > 0 && forall secret, data :: |mac(secret, data)| == size
    }
  }

  // ---------------------------------------------------------------- the expansion of RFC 2246, section 5

  /** `A(0)` is the seed, `A(i)` the hash of `A(i-1)`. */
  function A(d: Digest, secret: seq<byte>, seed: seq<byte>, i: nat): seq<byte>
  {
    if i == 0 then seed else d.mac(secret, A(d, secret, seed, i - 1))
  }

  /** The first `n` blocks: the hashes of `A(1)` and the seed, `A(2)` and the seed, and so on. */
  function Blocks(d: Digest, secret: seq<byte>, seed: seq<byte>, n: nat): seq<byte>
  {
    if n == 0 then []
    else Blocks(d, secret, seed, n - 1) + d.mac(secret, A(d, secret, seed, n) + seed)
  }

  /** The first `len` bytes of the blocks, of which `len` are always enough. */
  ghost function PHash(d: Digest, secret: seq<byte>, seed: seq<byte>, len: nat): (bytes: seq<byte>)
    requires d.Valid()
    ensures |bytes| == len
  {
    BlocksLength(d, secret, seed, len);
    Blocks(d, secret, seed, len)[..len]
  }

  lemma {:induction false} BlocksLength(d: Digest, secret: seq<byte>, seed: seq<byte>, n: nat)
    requires d.Valid()
    ensures |Blocks(d, secret, seed, n)| == n * d.size >= n
  {
    if n > 0 { BlocksLength(d, secret, seed, n - 1); }
  }

  lemma {:induction false} BlocksGrow(d: Digest, secret: seq<byte>, seed: seq<byte>, m: nat, n: nat)
    requires m <= n
    ensures Blocks(d, secret, seed, m) <= Blocks(d, secret, seed, n)
  {
    if m < n { BlocksGrow(d, secret, seed, m, n - 1); }
  }

  /** Any number of blocks that reaches the length gives the same bytes. */
  lemma EnoughBlocks(d: Digest, secret: seq<byte>, seed: seq<byte>, len: nat, n: nat)
    requires d.Valid() && len <= |Blocks(d, secret, seed, n)|
    ensures PHash(d, secret, seed, len) == Blocks(d, secret, seed, n)[..len]
  {
    BlocksLength(d, secret, seed, len);
    if n <= len {
      BlocksGrow(d, secret, seed, n, len);
    } else {
      BlocksGrow(d, secret, seed, len, n);
    }
  }

  /** A shorter request is the beginning of a longer one. */
  lemma ShorterIsPrefix(d: Digest, secret: seq<byte>, seed: seq<byte>, short: nat, long: nat)
    requires d.Valid() && short <= long
    ensures PHash(d, secret, seed, short) == PHash(d, secret, seed, long)[..short]
  {
    BlocksLength(d, secret, seed, long);
    EnoughBlocks(d, secret, seed, short, long);
  }

  /**
   * A chain of hashes that begins with the seed, and blocks that are the hashes of its later links, each
   * with the seed after it.
   */
  ghost predicate HashChain(
    d: Digest, secret: seq<byte>, seed: seq<byte>, chain: seq<seq<byte>>, blocks: seq<seq<byte>>)
  {
    && |chain| == |blocks| + 1 && chain[0] == seed
    && forall i :: 0 <= i < |blocks| ==> Link(d, secret, seed, chain, blocks, i)
  }

  ghost predicate Link(
    d: Digest, secret: seq<byte>, seed: seq<byte>, chain: seq<seq<byte>>, blocks: seq<seq<byte>>, i: nat)
    requires i < |blocks| && |chain| == |blocks| + 1
  {
    chain[i + 1] == d.mac(secret, chain[i]) && blocks[i] == d.mac(secret, chain[i + 1] + seed)
  }

  /** The beginning of the blocks of such a chain. */
  ghost predicate IsExpansion(d: Digest, secret: seq<byte>, seed: seq<byte>, out: seq<byte>)
  {
    exists chain, blocks :: HashChain(d, secret, seed, chain, blocks) && out <= Flatten(blocks)
  }

  lemma {:induction false} ChainOf(d: Digest, secret: seq<byte>, seed: seq<byte>, n: nat)
    returns (chain: seq<seq<byte>>, blocks: seq<seq<byte>>)
    ensures HashChain(d, secret, seed, chain, blocks) && Flatten(blocks) == Blocks(d, secret, seed, n)
    ensures chain[|blocks|] == A(d, secret, seed, n)
  {
    if n == 0 {
      chain, blocks := [seed], [];
    } else {
      var front, full := ChainOf(d, secret, seed, n - 1);
      var a := A(d, secret, seed, n);
      var last := d.mac(secret, a + seed);
      chain, blocks := front + [a], full + [last];
      FlattenConcat(full, [last]);
      assert Flatten([last]) == last + Flatten([]) == last;
      forall i | 0 <= i < |blocks|
        ensures Link(d, secret, seed, chain, blocks, i)
      {
        if i < |full| { assert Link(d, secret, seed, front, full, i); }
      }
    }
  }

  lemma PHashExpands(d: Digest, secret: seq<byte>, seed: seq<byte>, len: nat)
    requires d.Valid()
    ensures IsExpansion(d, secret, seed, PHash(d, secret, seed, len))
  {
    hide HashChain;
    var chain, blocks := ChainOf(d, secret, seed, len);
    BlocksLength(d, secret, seed, len);
  }

  method Expand(d: Digest, secret: seq<byte>, seed: seq<byte>, len: nat) returns (out: seq<byte>)
    requires d.Valid()
    ensures out == PHash(d, secret, seed, len)
    ensures |out| == len && IsExpansion(d, secret, seed, out)
  {
    hide HashChain, IsExpansion;
    out := [];
    var a := d.mac(secret, seed);
    ghost var n := 0;
    while |out| < len
      invariant out == Blocks(d, secret, seed, n) && a == A(d, secret, seed, n + 1)
      decreases len - |out|
    {
      var block := a + seed;
      out := out + d.mac(secret, block);
      a := d.mac(secret, a);
      n := n + 1;
    }
    EnoughBlocks(d, secret, seed, len, n);
    out := out[..len];
    PHashExpands(d, secret, seed, len);
  }

  // ---------------------------------------------------------------- two halves of the secret

  /** The first half of the secret with MD5, the second with SHA-1; an odd middle byte is in both. */
  function Halves(secret: seq<byte>): (halves: (seq<byte>, seq<byte>))
    ensures |halves.0| == |halves.1| && halves.0 <= secret
    ensures |secret| <= |halves.0| + |halves.1| <= |secret| + 1
    ensures secret == halves.0 + halves.1[|halves.0| + |halves.1| - |secret|..]
  {
    var half := (|secret| + 1) / 2;
    (secret[..half], secret[|secret| - half..])
  }

  ghost function Prf(md5: Digest, sha1: Digest, secret: seq<byte>, seed: seq<byte>, len: nat): (bytes: seq<byte>)
    requires md5.Valid() && sha1.Valid()
    ensures |bytes| == len
  {
    var halves := Halves(secret);
    XorAll(PHash(md5, halves.0, seed, len), PHash(sha1, halves.1, seed, len))
  }

  function XorAll(a: seq<byte>, b: seq<byte>): (c: seq<byte>)
    requires |a| == |b|
    ensures |c| == |a| && forall k :: 0 <= k < |c| ==> c[k] == Xor(a[k], b[k])
  {
    seq(|a|, k requires 0 <= k < |a| => Xor(a[k], b[k]))
  }

  /**
   * Each byte is the exclusive or of one expanded from the first half of the secret, rounded up, with the
   * one digest, and one expanded from the last half, rounded up, with the other.
   */
  ghost predicate IsPrf(md5: Digest, sha1: Digest, secret: seq<byte>, seed: seq<byte>, out: seq<byte>)
  {
    var half := (|secret| + 1) / 2;
    exists left, right ::
      && IsExpansion(md5, secret[..half], seed, left) && IsExpansion(sha1, secret[|secret| - half..], seed, right)
      && |left| == |right| == |out| && forall k :: 0 <= k < |out| ==> out[k] == Xor(left[k], right[k])
  }

  lemma PrfIs(md5: Digest, sha1: Digest, secret: seq<byte>, seed: seq<byte>, len: nat)
    requires md5.Valid() && sha1.Valid()
    ensures IsPrf(md5, sha1, secret, seed, Prf(md5, sha1, secret, seed, len))
  {
    hide PHash, IsExpansion, Xor;
    var halves := Halves(secret);
    PHashExpands(md5, halves.0, seed, len);
    PHashExpands(sha1, halves.1, seed, len);
  }

  method Generate(md5: Digest, sha1: Digest, secret: seq<byte>, purpose: seq<byte>, parts: seq<seq<byte>>, len: nat)
    returns (out: seq<byte>)
    requires md5.Valid() && sha1.Valid()
    ensures out == Prf(md5, sha1, secret, purpose + Flatten(parts), len)
    ensures |out| == len && IsPrf(md5, sha1, secret, purpose + Flatten(parts), out)
  {
    hide PHash, IsExpansion, IsPrf;
    var seed := purpose;
    for k := 0 to |parts|
      invariant seed + Flatten(parts[k..]) == purpose + Flatten(parts)
    {
      assert seed + (parts[k] + Flatten(parts[k + 1..])) == (seed + parts[k]) + Flatten(parts[k + 1..]);
      seed := seed + parts[k];
    }
    assert seed == purpose + Flatten(parts);
    var half := (|secret| + 1) / 2;
    var left := Expand(md5, secret[..half], seed, len);
    var right := Expand(sha1, secret[|secret| - half..], seed, len);
    out := XorAll(left, right);
    PrfIs(md5, sha1, secret, seed, len);
  }

  lemma ShorterPrfIsPrefix(md5: Digest, sha1: Digest, secret: seq<byte>, seed: seq<byte>, short: nat, long: nat)
    requires md5.Valid() && sha1.Valid() && short <= long
    ensures Prf(md5, sha1, secret, seed, short) == Prf(md5, sha1, secret, seed, long)[..short]
  {
    ShorterIsPrefix(md5, Halves(secret).0, seed, short, long);
    ShorterIsPrefix(sha1, Halves(secret).1, seed, short, long);
  }

  // ---------------------------------------------------------------- the four keys

  datatype Seed = Seed(
    preMaster: seq<byte>, clientRandom1: seq<byte>, serverRandom1: seq<byte>,
    clientRandom2: seq<byte>, serverRandom2: seq<byte>, clientSid: seq<byte>, serverSid: seq<byte>)

  datatype Material = Material(encrypt: seq<byte>, decrypt: seq<byte>, macEncrypt: seq<byte>, macDecrypt: seq<byte>)

  datatype Range = Range(from: nat, to: nat)

  function Ascii(text: string): (bytes: seq<byte>)
    ensures |bytes| == |text|
    ensures forall k :: 0 <= k < |text| && text[k] < 128 as char ==> bytes[k] as int == text[k] as int
  {
    seq(|text|, k requires 0 <= k < |text| => (text[k] as int) % 256)
  }

  ghost function Master(md5: Digest, sha1: Digest, s: Seed): seq<byte>
    requires md5.Valid() && sha1.Valid()
  {
    Prf(md5, sha1, s.preMaster, Ascii("OpenVPN master secret") + Flatten([s.clientRandom1, s.serverRandom1]), MASTER_LEN)
  }

  ghost function Expanded(md5: Digest, sha1: Digest, s: Seed): (bytes: seq<byte>)
    requires md5.Valid() && sha1.Valid()
    ensures |bytes| == KEY2_LEN
  {
    var seed := Flatten([s.clientRandom2, s.serverRandom2, s.clientSid, s.serverSid]);
    Prf(md5, sha1, Master(md5, sha1, s), Ascii("OpenVPN key expansion") + seed, KEY2_LEN)
  }

  /** Which bytes of the expansion are the encryption key, its MAC key, the decryption key, its MAC key. */
  function Layout(cipher: Cipher, auth: Auth): (ranges: seq<Range>)
    ensures |ranges| == 4
    ensures forall i :: 0 <= i < 4 ==> ranges[i].from < ranges[i].to <= KEY2_LEN
    ensures forall i, j :: 0 <= i < j < 4 ==> ranges[i].to <= ranges[j].from
    ensures forall i :: 0 <= i < 4 ==> ranges[i].from == 64 * i
    ensures forall i :: 0 <= i < 4 ==>
      ranges[i].to == ranges[i].from + if i == 0 || i == 2 then cipher.KeyLen() else auth.Size()
  {
    [Range(0, cipher.KeyLen()), Range(KEY_LEN, KEY_LEN + auth.Size()),
     Range(2 * KEY_LEN, 2 * KEY_LEN + cipher.KeyLen()), Range(3 * KEY_LEN, 3 * KEY_LEN + auth.Size())]
  }

  function Slice(bytes: seq<byte>, r: Range): seq<byte>
    requires r.from <= r.to <= |bytes|
  {
    bytes[r.from..r.to]
  }

  function MasterSeed(s: Seed): seq<byte>
  {
    Ascii("OpenVPN master secret") + s.clientRandom1 + s.serverRandom1
  }

  /** The client's part before the server's. */
  function ExpansionSeed(s: Seed): seq<byte>
  {
    Ascii("OpenVPN key expansion") + s.clientRandom2 + s.serverRandom2 + s.clientSid + s.serverSid
  }

  /** The keys begin at every 64th byte. */
  predicate CutFrom(bytes: seq<byte>, keyLen: nat, macLen: nat, keys: Material)
  {
    && |bytes| == 256 && keyLen <= 64 && macLen <= 64
    && keys.encrypt == bytes[..keyLen] && keys.macEncrypt == bytes[64..64 + macLen]
    && keys.decrypt == bytes[128..128 + keyLen] && keys.macDecrypt == bytes[192..192 + macLen]
  }

  /**
   * A master secret of 48 bytes comes from the pre-master secret and the first two random numbers; 256
   * bytes are expanded from it and the second two and the session ids; the keys are cut from these.
   */
  ghost predicate IsDerived(
    md5: Digest, sha1: Digest, s: Seed, keyLen: nat, macLen: nat, keys: Material, master: seq<byte>, bytes: seq<byte>)
  {
    && |master| == 48 && IsPrf(md5, sha1, s.preMaster, MasterSeed(s), master)
    && IsPrf(md5, sha1, master, ExpansionSeed(s), bytes) && CutFrom(bytes, keyLen, macLen, keys)
  }

  lemma FlattenTwo(b: seq<byte>, c: seq<byte>)
    ensures Flatten([b, c]) == b + c
  {
    assert [b, c][1..] == [c] && Flatten([c]) == c + Flatten([]) == c;
  }

  lemma FlattenFour(b: seq<byte>, c: seq<byte>, d: seq<byte>, e: seq<byte>)
    ensures Flatten([b, c, d, e]) == b + c + d + e
  {
    FlattenTwo(b, c);
    FlattenTwo(d, e);
    FlattenConcat([b, c], [d, e]);
    assert [b, c] + [d, e] == [b, c, d, e];
  }

  lemma SeedsAre(s: Seed)
    ensures Ascii("OpenVPN master secret") + Flatten([s.clientRandom1, s.serverRandom1]) == MasterSeed(s)
    ensures Ascii("OpenVPN key expansion") + Flatten([s.clientRandom2, s.serverRandom2, s.clientSid, s.serverSid])
         == ExpansionSeed(s)
  {
    hide Flatten, Ascii;
    FlattenTwo(s.clientRandom1, s.serverRandom1);
    FlattenFour(s.clientRandom2, s.serverRandom2, s.clientSid, s.serverSid);
  }

  /** The keys are disjoint slices of the expansion, and both data ciphers can be made from them. */
  method Derive(md5: Digest, sha1: Digest, s: Seed, cipher: Cipher, auth: Auth) returns (keys: Material)
    requires md5.Valid() && sha1.Valid()
    ensures var expanded, layout := Expanded(md5, sha1, s), Layout(cipher, auth);
            && keys.encrypt == Slice(expanded, layout[0]) && keys.macEncrypt == Slice(expanded, layout[1])
            && keys.decrypt == Slice(expanded, layout[2]) && keys.macDecrypt == Slice(expanded, layout[3])
    ensures exists master, bytes :: IsDerived(md5, sha1, s, cipher.KeyLen(), auth.Size(), keys, master, bytes)
    ensures New(cipher, auth, keys.encrypt, keys.macEncrypt).Created?
    ensures New(cipher, auth, keys.decrypt, keys.macDecrypt).Created?
  {
    hide Flatten, Prf, New, IsPrf, Ascii;
    var master := Generate(md5, sha1, s.preMaster, Ascii("OpenVPN master secret"), [s.clientRandom1, s.serverRandom1], MASTER_LEN);
    var keyLen := cipher.KeyLen();
    var macLen := auth.Size();
    var expanded := Generate(md5, sha1, master, Ascii("OpenVPN key expansion"),
      [s.clientRandom2, s.serverRandom2, s.clientSid, s.serverSid], KEY2_LEN);
    var encrypt := expanded[..keyLen];
    var macEncrypt := expanded[KEY_LEN..KEY_LEN + macLen];
    var decrypt := expanded[KEY_LEN + KEY_LEN..KEY_LEN + KEY_LEN + keyLen];
    var macDecrypt := expanded[KEY_LEN + KEY_LEN + KEY_LEN..KEY_LEN + KEY_LEN + KEY_LEN + macLen];
    keys := Material(encrypt, decrypt, macEncrypt, macDecrypt);
    SeedsAre(s);
    assert IsDerived(md5, sha1, s, keyLen, macLen, keys, master, expanded);
  }
}
