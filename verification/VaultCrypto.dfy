/** Vault item decryption: the vault key from its two shares, the CBC chain, and padding removal. */
module VaultCrypto {

  type Bytes = seq<bv8>

  const BLOCK: nat := 16

  // ----- The vault key -----

  function Xor(a: Bytes, b: Bytes): (r: Bytes)
    requires |a| == |b|
    ensures |r| == |a| && forall i :: 0 <= i < |r| ==> r[i] == a[i] ^ b[i]
  {
    seq(|a|, i requires 0 <= i < |a| => a[i] ^ b[i])
  }

  datatype Result<+T> = Ok(value: T) | Failed(reason: string) | Panicked(reason: string)

  /** getVaultKey after both shares were decrypted. */
  method CombineKeys(secretKey: Bytes, vaultKey: Bytes) returns (r: Result<Bytes>)
    ensures |secretKey| != |vaultKey| ==> r == Failed("key length mismatch")
    ensures |secretKey| == |vaultKey| ==> r == Ok(Xor(secretKey, vaultKey))
  {
    if |secretKey| != |vaultKey| {
      return Failed("key length mismatch");
    }
    var xored := new bv8[|secretKey|];
    for i := 0 to |secretKey|
      invariant forall k :: 0 <= k < i ==> xored[k] == secretKey[k] ^ vaultKey[k]
    {
      xored[i] := secretKey[i] ^ vaultKey[i];
    }
    assert xored[..] == Xor(secretKey, vaultKey);
    return Ok(xored[..]);
  }

  lemma XorByte(a: bv8, b: bv8)
    ensures (a ^ b) ^ b == a && a ^ (a ^ b) == b
  {}

  /** Either share, combined with the key, gives back the other. */
  lemma XorRecovers(secretKey: Bytes, vaultKey: Bytes)
    requires |secretKey| == |vaultKey|
    ensures Xor(Xor(secretKey, vaultKey), vaultKey) == secretKey
    ensures Xor(secretKey, Xor(secretKey, vaultKey)) == vaultKey
  {
    forall i | 0 <= i < |secretKey|
      ensures (secretKey[i] ^ vaultKey[i]) ^ vaultKey[i] == secretKey[i]
      ensures secretKey[i] ^ (secretKey[i] ^ vaultKey[i]) == vaultKey[i]
    {
      XorByte(secretKey[i], vaultKey[i]);
    }
  }

  // ----- The CBC chain -----

  /** A block cipher under one key. */
  datatype Cipher = Cipher(encrypt: Bytes -> Bytes, decrypt: Bytes -> Bytes)

  /** On blocks, decryption inverts encryption and both give blocks. */
  ghost predicate Inverts(c: Cipher) {
    && (forall b: Bytes {:trigger c.encrypt(b)} :: |b| == BLOCK ==> |c.encrypt(b)| == BLOCK && c.decrypt(c.encrypt(b)) == b)
    && (forall b: Bytes {:trigger c.decrypt(b)} :: |b| == BLOCK ==> |c.decrypt(b)| == BLOCK)
  }

  /** Encryption chains each plaintext block with the previous ciphertext block. */
  ghost function CbcEncrypt(c: Cipher, iv: Bytes, plain: Bytes): (r: Bytes)
    requires Inverts(c) && |iv| == BLOCK && |plain| % BLOCK == 0
    ensures |r| == |plain|
    decreases |plain|
  {
    if plain == [] then []
    else
      var first := c.encrypt(Xor(plain[..BLOCK], iv));
      first + CbcEncrypt(c, first, plain[BLOCK..])
  }

  ghost function CbcDecrypt(c: Cipher, iv: Bytes, data: Bytes): (r: Bytes)
    requires Inverts(c) && |iv| == BLOCK && |data| % BLOCK == 0
    ensures |r| == |data|
    decreases |data|
  {
    if data == [] then []
    else Xor(c.decrypt(data[..BLOCK]), iv) + CbcDecrypt(c, data[..BLOCK], data[BLOCK..])
  }

  lemma {:induction false} CbcInverts(c: Cipher, iv: Bytes, plain: Bytes)
    requires Inverts(c) && |iv| == BLOCK && |plain| % BLOCK == 0
    ensures CbcDecrypt(c, iv, CbcEncrypt(c, iv, plain)) == plain
    decreases |plain|
  {
    if plain != [] {
      var mixed := Xor(plain[..BLOCK], iv);
      var first := c.encrypt(mixed);
      var rest := CbcEncrypt(c, first, plain[BLOCK..]);
      assert (first + rest)[..BLOCK] == first && (first + rest)[BLOCK..] == rest;
      XorRecovers(plain[..BLOCK], iv);
      CbcInverts(c, first, plain[BLOCK..]);
      assert plain == plain[..BLOCK] + plain[BLOCK..];
    }
  }

  // ----- Padding -----

  /** Padding by section 6.3 of RFC 5652: n bytes of value n, with n from 1 to the block size. */
  function Pad(p: Bytes): Bytes {
    var n := BLOCK - |p| % BLOCK;
    p + seq(n, _ => n as bv8)
  }

  function Unpad(d: Bytes): Bytes {
    if d == [] then d
    else
      var n := d[|d| - 1] as int;
      if n > |d| || n == 0 then d else d[..|d| - n]
  }

  lemma UnpadPad(p: Bytes)
    ensures Unpad(Pad(p)) == p && |Pad(p)| % BLOCK == 0 && |Pad(p)| >= BLOCK
  {
    var n := BLOCK - |p| % BLOCK;
    assert (n as bv8) as int == n;
    assert Pad(p)[..|p|] == p;
  }

  /** Unpadding drops as many bytes as the last one says, and nothing if that is none or more than there
      are. */
  lemma UnpadDrops(d: Bytes)
    ensures Unpad(d) <= d
    ensures d != [] ==>
              var n := d[|d| - 1] as int;
              |Unpad(d)| == if 1 <= n <= |d| then |d| - n else |d|
  {}

  predicate ProperlyPadded(d: Bytes) {
    && |d| > 0 && |d| % BLOCK == 0
    && var n := d[|d| - 1] as int;
    && 1 <= n <= BLOCK && forall i :: |d| - n <= i < |d| ==> d[i] == d[|d| - 1]
  }

  lemma PaddedIsProper(p: Bytes)
    ensures ProperlyPadded(Pad(p))
  {
    UnpadPad(p);
    var n := BLOCK - |p| % BLOCK;
    assert (n as bv8) as int == n;
  }

  lemma ProperIsPadded(d: Bytes)
    requires ProperlyPadded(d)
    ensures Pad(Unpad(d)) == d
  {
    var n := d[|d| - 1] as int;
    var p := d[..|d| - n];
    assert BLOCK - |p| % BLOCK == n by {
      RemainderOf(|p|, |d|, n);
    }
    assert n as bv8 == d[|d| - 1];
    assert d[|d| - n..] == seq(n, _ => n as bv8);
    assert d == p + d[|d| - n..];
  }

  lemma RemainderOf(p: nat, d: nat, n: nat)
    requires d % BLOCK == 0 && p == d - n && 1 <= n <= BLOCK
    ensures BLOCK - p % BLOCK == n
  {}

  /** Unpadding checks nothing but the last byte; it undoes padding exactly on properly padded data. */
  lemma UnpadFaithfulIff(d: Bytes)
    ensures Pad(Unpad(d)) == d <==> ProperlyPadded(d)
  {
    PaddedIsProper(Unpad(d));
    if ProperlyPadded(d) {
      ProperIsPadded(d);
    }
  }

  // ----- decryptAESCBC -----

  predicate KeySize(key: Bytes) { |key| == 16 || |key| == 24 || |key| == 32 }

  /** The cipher package: a cipher for every key it accepts. */
  type Aes = Bytes -> Cipher

  ghost predicate AesInverts(aes: Aes) {
    forall key {:trigger aes(key)} :: KeySize(key) ==> Inverts(aes(key))
  }

  /** `iv` is the hex-decoded initialisation vector, if it decodes. */
  datatype Iv = Undecodable | Decoded(bytes: Bytes)

  ghost function Decrypted(aes: Aes, key: Bytes, data: Bytes, iv: Iv): Result<Bytes>
    requires AesInverts(aes)
  {
    if !KeySize(key) then Failed("invalid key size")
    else if |data| < BLOCK then Failed("ciphertext too short")
    else if iv.Undecodable? then Failed("invalid IV")
    else if |iv.bytes| != BLOCK || |data| % BLOCK != 0 then Panicked("CBC")
    else Ok(Unpad(CbcDecrypt(aes(key), iv.bytes, data)))
  }

  /** The first blocks are decrypted as `done`; the rest is chained from `prev`. */
  ghost predicate Decrypting(c: Cipher, iv: Bytes, data: Bytes, at: nat, prev: Bytes, done: Bytes)
    requires Inverts(c) && |iv| == BLOCK && |data| % BLOCK == 0
  {
    && at <= |data| && at % BLOCK == 0 && |prev| == BLOCK && |data[at..]| % BLOCK == 0
    && CbcDecrypt(c, iv, data) == done + CbcDecrypt(c, prev, data[at..])
  }

  lemma DecryptingStep(c: Cipher, iv: Bytes, data: Bytes, at: nat, prev: Bytes, done: Bytes)
    requires Inverts(c) && |iv| == BLOCK && |data| % BLOCK == 0
    requires Decrypting(c, iv, data, at, prev, done) && at < |data|
    ensures at + BLOCK <= |data|
    ensures var block := data[at..at + BLOCK];
            Decrypting(c, iv, data, at + BLOCK, block, done + Xor(c.decrypt(block), prev))
  {
    var block, rest := data[at..at + BLOCK], data[at + BLOCK..];
    assert data[at..][..BLOCK] == block && data[at..][BLOCK..] == rest;
    var x := Xor(c.decrypt(block), prev);
    assert done + (x + CbcDecrypt(c, block, rest)) == done + x + CbcDecrypt(c, block, rest);
  }

  lemma DecryptingStart(c: Cipher, iv: Bytes, data: Bytes)
    requires Inverts(c) && |iv| == BLOCK && |data| % BLOCK == 0
    ensures Decrypting(c, iv, data, 0, iv, [])
  {
    assert data[0..] == data;
  }

  method XorInto(plain: array<bv8>, at: nat, out: Bytes, prev: Bytes)
    requires |out| == BLOCK && |prev| == BLOCK && at + BLOCK <= plain.Length
    modifies plain
    ensures plain[..at + BLOCK] == old(plain[..at]) + Xor(out, prev)
  {
    for k := 0 to BLOCK
      invariant plain[..at] == old(plain[..at])
      invariant forall j :: 0 <= j < k ==> plain[at + j] == out[j] ^ prev[j]
    {
      plain[at + k] := out[k] ^ prev[k];
    }
    assert plain[at..at + BLOCK] == Xor(out, prev);
    assert plain[..at + BLOCK] == plain[..at] + plain[at..at + BLOCK];
  }

  method CryptBlocks(c: Cipher, iv: Bytes, data: Bytes) returns (plain: array<bv8>)
    requires Inverts(c) && |iv| == BLOCK && |data| % BLOCK == 0
    ensures fresh(plain) && plain[..] == CbcDecrypt(c, iv, data)
  {
    plain := new bv8[|data|];
    var at, prev := 0, iv;
    DecryptingStart(c, iv, data);
    while at < |data|
      invariant at <= |data| && at % BLOCK == 0 && |prev| == BLOCK
      invariant Decrypting(c, iv, data, at, prev, plain[..at])
    {
      DecryptingStep(c, iv, data, at, prev, plain[..at]);
      var block := data[at..at + BLOCK];
      XorInto(plain, at, c.decrypt(block), prev);
      at, prev := at + BLOCK, block;
    }
    assert data[at..] == [] && plain[..at] == plain[..];
  }

  method DecryptAesCbc(aes: Aes, key: Bytes, data: Bytes, iv: Iv) returns (r: Result<Bytes>)
    requires AesInverts(aes)
    ensures r == Decrypted(aes, key, data, iv)
  {
    if !KeySize(key) {
      return Failed("invalid key size");
    }
    var block := aes(key);
    if |data| < BLOCK {
      return Failed("ciphertext too short");
    }
    if iv.Undecodable? {
      return Failed("invalid IV");
    }
    if |iv.bytes| != BLOCK || |data| % BLOCK != 0 {
      return Panicked("CBC");
    }
    var plaintext := CryptBlocks(block, iv.bytes, data);
    return Ok(Unpad(plaintext[..]));
  }

  /** Decryption with the key made from both shares recovers every plaintext that was padded and
      encrypted under that key. */
  lemma VaultRoundTrip(aes: Aes, secretKey: Bytes, vaultKey: Bytes, iv: Bytes, plain: Bytes)
    requires AesInverts(aes) && |secretKey| == |vaultKey| && |iv| == 16
    requires |secretKey| == 16 || |secretKey| == 24 || |secretKey| == 32
    ensures |Pad(plain)| % BLOCK == 0
    ensures var key := Xor(secretKey, vaultKey);
            Decrypted(aes, key, CbcEncrypt(aes(key), iv, Pad(plain)), Decoded(iv)) == Ok(plain)
  {
    UnpadPad(plain);
    CbcInverts(aes(Xor(secretKey, vaultKey)), iv, Pad(plain));
  }

  /** The first thing wrong decides the error: the key's size, then too little data, then a vector that does
      not decode. */
  lemma DecryptErrors(aes: Aes, key: Bytes, data: Bytes, iv: Iv)
    requires AesInverts(aes)
    ensures var sized := |key| == 16 || |key| == 24 || |key| == 32; var r := Decrypted(aes, key, data, iv);
            && (!sized ==> r == Failed("invalid key size"))
            && (sized && |data| < 16 ==> r == Failed("ciphertext too short"))
            && (sized && |data| >= 16 && iv.Undecodable? ==> r == Failed("invalid IV"))
  {}

  /** Decryption gives a plaintext exactly for a key of 16, 24 or 32 bytes, an initialisation vector of one
      block, and at least one whole block of data; it never fails on what it decrypts. */
  lemma DecryptsIff(aes: Aes, key: Bytes, data: Bytes, iv: Iv)
    requires AesInverts(aes)
    ensures Decrypted(aes, key, data, iv).Ok? <==>
            && (|key| == 16 || |key| == 24 || |key| == 32)
            && iv.Decoded? && |iv.bytes| == 16
            && |data| > 0 && |data| % 16 == 0
    ensures Decrypted(aes, key, data, iv).Panicked? <==>
            && (|key| == 16 || |key| == 24 || |key| == 32)
            && |data| >= 16 && iv.Decoded? && (|iv.bytes| != 16 || |data| % 16 != 0)
  {}
}
