/** `CryptoManager` as an abstract interface: PBKDF2 key derivation,
    AES-256-CBC with PKCS#7 padding, and the SHA-256 password hash are
    function values, and the only facts the vault may rely on are the ones
    collected in `Sound`. */
module Crypto {
  import opened Base
  import opened Errors

  const SALT_SIZE: nat := 16
  const IV_SIZE: nat := 16
  const KEY_SIZE: nat := 32
  const HASH_SIZE: nat := 32
  const BLOCK_SIZE: nat := 16

  /** The fixed round count `deriveKey` passes to PBKDF2. */
  const ITERATIONS: Int32 := 100000

  /** A random salt or IV as `generateSalt` / `generateIV` return it. */
  type Salt = s: seq<Byte> | |s| == SALT_SIZE witness Zeros(16)
  type Iv = s: seq<Byte> | |s| == IV_SIZE witness Zeros(16)

  /** A PBKDF2 output and a SHA-256 digest: the sizes are fixed by the primitives. */
  type Key = s: seq<Byte> | |s| == KEY_SIZE witness Zeros(32)
  type Digest = s: seq<Byte> | |s| == HASH_SIZE witness Zeros(32)

  /** What `decrypt` ends in: the plaintext, or the step of OpenSSL that failed. */
  datatype Decrypted = Plain(bytes: seq<Byte>) | InitFailed | UpdateFailed | FinalFailed

  /** The four primitives. `deriveKey` takes only the password and the salt:
      its round count is the constant `ITERATIONS`, whatever a vault header says. */
  datatype Cipher = Cipher(
    deriveKey: (CStr, seq<Byte>) -> Key,
    encrypt: (seq<Byte>, seq<Byte>, seq<Byte>) -> seq<Byte>,
    decrypt: (seq<Byte>, seq<Byte>, seq<Byte>) -> Decrypted,
    sha256: CStr -> Digest)

  /** What the model assumes of encryption: CBC with padding grows the
      plaintext to the next whole block, and decryption under the same key and
      IV undoes encryption. */
  ghost predicate Sound(c: Cipher)
  {
    && (forall p, k, iv :: |c.encrypt(p, k, iv)| == (|p| / BLOCK_SIZE + 1) * BLOCK_SIZE)
    && (forall p, k, iv :: |k| == KEY_SIZE && |iv| == IV_SIZE ==> c.decrypt(c.encrypt(p, k, iv), k, iv) == Plain(p))
  }

  /** `decrypt` as the vault sees it: each OpenSSL failure becomes the
      `std::runtime_error` the wrapper throws, never a `CryptographyException`. */
  function Decrypt(c: Cipher, ct: seq<Byte>, key: seq<Byte>, iv: seq<Byte>): (r: Result<seq<Byte>>)
    ensures r.Err? ==> r.error == RuntimeError("error initializing")
                       || r.error == RuntimeError("error decrypting")
                       || r.error == RuntimeError("error adding padding to end of buffer")
    ensures Sound(c) && |key| == KEY_SIZE && |iv| == IV_SIZE ==>
              forall p :: ct == c.encrypt(p, key, iv) ==> r == Ok(p)
  {
    match c.decrypt(ct, key, iv)
    case Plain(p) => Ok(p)
    case InitFailed => Err(RuntimeError("error initializing"))
    case UpdateFailed => Err(RuntimeError("error decrypting"))
    case FinalFailed => Err(RuntimeError("error adding padding to end of buffer"))
  }

  /** PKCS#7 padding: one to sixteen bytes, each holding the pad length. */
  function Pad(p: seq<Byte>): (r: seq<Byte>)
    ensures |r| == (|p| / BLOCK_SIZE + 1) * BLOCK_SIZE
    ensures r[..|p|] == p
  {
    var n := 16 - |p| % 16;
    p + seq(n, _ => n)
  }

  /** Removal of PKCS#7 padding, failing as `EVP_DecryptFinal_ex` does on a
      partial final block or a malformed pad. */
  function Unpad(b: seq<Byte>): Decrypted
  {
    if |b| == 0 || |b| % 16 != 0 then FinalFailed
    else
      var n := b[|b| - 1];
      if 1 <= n <= 16 && forall i :: |b| - n <= i < |b| ==> b[i] == n then Plain(b[..|b| - n])
      else FinalFailed
  }

  lemma {:induction false} UnpadPad(p: seq<Byte>)
    ensures Unpad(Pad(p)) == Plain(p)
  {
    var b := Pad(p);
    var n := 16 - |p| % 16;
    assert b[|b| - 1] == n;
    assert |b| - n == |p|;
  }

  /** A cipher that pads without scrambling: enough to show that `Sound` can
      be met, so results proved under it are not vacuous. */
  const PaddingOnly: Cipher := Cipher(
    (pw: CStr, salt: seq<Byte>) => Zeros(KEY_SIZE),
    (p: seq<Byte>, k: seq<Byte>, iv: seq<Byte>) => Pad(p),
    (b: seq<Byte>, k: seq<Byte>, iv: seq<Byte>) => Unpad(b),
    (s: CStr) => Zeros(HASH_SIZE))

  lemma {:induction false} PaddingOnlyIsSound()
    ensures Sound(PaddingOnly)
  {
    forall p: seq<Byte>, k: seq<Byte>, iv: seq<Byte>
      ensures PaddingOnly.decrypt(PaddingOnly.encrypt(p, k, iv), k, iv) == Plain(p)
    {
      UnpadPad(p);
    }
  }
}
