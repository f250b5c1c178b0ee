/**
 * Sealing a seed at rest, over a symbolic cipher: a ciphertext remembers the key, nonce and
 * associated data it was made with, and decrypts under exactly those.
 */
module Crypto {
  import opened Wrappers
  import opened Bytes

  const NONCE_LEN: nat := 12
  const SALT_LEN: nat := 32
  const SCHEME_V1: nat := 1
  const SCHEME_V2: nat := 2

  type MasterKey = k: Bytes | |k| == 32 witness seq(32, _ => 0)
  type Salt = s: Bytes | |s| == 32 witness seq(32, _ => 0)
  type Nonce = n: Bytes | |n| == 12 witness seq(12, _ => 0)

  /** HKDF-SHA256, taken to separate its inputs. */
  datatype Subkey = Hkdf(master: MasterKey, salt: Salt, info: Bytes)

  /** AES-256-GCM output, or bytes that no encryption produced. */
  datatype Ciphertext = Gcm(key: Subkey, nonce: Nonce, aad: Bytes, plaintext: Bytes) | Junk(bytes: Bytes)

  /** The authenticated decryption of section 2.2 of RFC 5116: the plaintext, or FAIL. */
  function Decrypt(key: Subkey, nonce: Nonce, aad: Bytes, c: Ciphertext): Option<Bytes> {
    if c.Gcm? && c.key == key && c.nonce == nonce && c.aad == aad then Some(c.plaintext) else None
  }

  datatype CryptoError =
    | DecryptionFailed | UnknownScheme(scheme: nat) | InvalidNonceLength | AccountIdentityRequired

  datatype SealedSeed = SealedSeed(ciphertext: Ciphertext, nonce: Nonce, salt: Salt, scheme: nat)

  /** `from_parts_with_scheme`: stored columns back into a record. */
  function FromParts(ciphertext: Ciphertext, nonce: Bytes, salt: Bytes, scheme: nat): Result<SealedSeed, CryptoError> {
    if scheme != SCHEME_V1 && scheme != SCHEME_V2 then Err(UnknownScheme(scheme))
    else if |nonce| != NONCE_LEN || |salt| != SALT_LEN then Err(InvalidNonceLength)
    else Ok(SealedSeed(ciphertext, nonce, salt, scheme))
  }

  /** `seal`, with the salt and nonce its RNG draws. */
  function Seal(master: MasterKey, plaintext: Bytes, context: Bytes, salt: Salt, nonce: Nonce): SealedSeed {
    SealedSeed(Gcm(Hkdf(master, salt, context), nonce, context, plaintext), nonce, salt, SCHEME_V1)
  }

  function Open(master: MasterKey, sealed: SealedSeed, context: Bytes): Result<Bytes, CryptoError> {
    if sealed.scheme == SCHEME_V2 then Err(AccountIdentityRequired)
    else if sealed.scheme != SCHEME_V1 then Err(UnknownScheme(sealed.scheme))
    else
      match Decrypt(Hkdf(master, sealed.salt, context), sealed.nonce, context, sealed.ciphertext)
      case Some(plaintext) => Ok(plaintext)
      case None => Err(DecryptionFailed)
  }

  /** `reseal`: the one place a scheme-0 record is taken, as V1. */
  function Reseal(oldKey: MasterKey, newKey: MasterKey, sealed: SealedSeed, context: Bytes, salt: Salt, nonce: Nonce)
    : Result<SealedSeed, CryptoError>
  {
    var tagged := if sealed.scheme == 0 then sealed.(scheme := SCHEME_V1) else sealed;
    match Open(oldKey, tagged, context)
    case Ok(plaintext) => Ok(Seal(newKey, plaintext, context, salt, nonce))
    case Err(error) => Err(error)
  }

  function BoundContext(context: Bytes, account: Bytes): Bytes {
    context + [0] + account
  }

  function SealWithAccountId(master: MasterKey, plaintext: Bytes, context: Bytes, account: Bytes, salt: Salt,
                             nonce: Nonce)
    : Result<SealedSeed, CryptoError>
  {
    if account == [] then Err(AccountIdentityRequired)
    else Ok(Seal(master, plaintext, BoundContext(context, account), salt, nonce).(scheme := SCHEME_V2))
  }

  function OpenWithAccountId(master: MasterKey, sealed: SealedSeed, context: Bytes, account: Bytes)
    : Result<Bytes, CryptoError>
  {
    if sealed.scheme != SCHEME_V2 then Open(master, sealed, context)
    else if account == [] then Err(AccountIdentityRequired)
    else Open(master, sealed.(scheme := SCHEME_V1), BoundContext(context, account))
  }

  function ResealWithAccountId(oldKey: MasterKey, newKey: MasterKey, sealed: SealedSeed, context: Bytes,
                               account: Bytes, salt: Salt, nonce: Nonce)
    : Result<SealedSeed, CryptoError>
  {
    match OpenWithAccountId(oldKey, sealed, context, account)
    case Ok(plaintext) => SealWithAccountId(newKey, plaintext, context, account, salt, nonce)
    case Err(error) => Err(error)
  }

  /** A sealed record opens under its own key and context, and under no other. */
  lemma SealedOpensOnly(master: MasterKey, plaintext: Bytes, context: Bytes, salt: Salt, nonce: Nonce, key: MasterKey,
                        other: Bytes)
    ensures Open(key, Seal(master, plaintext, context, salt, nonce), other)
         == if key == master && other == context then Ok(plaintext) else Err(DecryptionFailed)
  {
  }

  /** The ciphertext `seal` makes of a plaintext in a context. */
  ghost predicate SealedIn(sealed: SealedSeed, master: MasterKey, context: Bytes, plaintext: Bytes) {
    sealed.ciphertext == Gcm(Hkdf(master, sealed.salt, context), sealed.nonce, context, plaintext)
  }

  /** Exactly which records open, to what, and what is said of the others. */
  lemma OpensIff(master: MasterKey, sealed: SealedSeed, context: Bytes, plaintext: Bytes)
    ensures var r := Open(master, sealed, context);
      && (r == Ok(plaintext) <==> sealed.scheme == 1 && SealedIn(sealed, master, context, plaintext))
      && (r == Err(AccountIdentityRequired) <==> sealed.scheme == 2)
      && (r == Err(UnknownScheme(sealed.scheme)) <==> sealed.scheme !in {1, 2})
      && (r.Err? ==> r.error in {AccountIdentityRequired, UnknownScheme(sealed.scheme), DecryptionFailed})
  {
  }

  /** The same for account-bound records: the account is part of the context, after a NUL, and never empty. */
  lemma BoundOpensIff(master: MasterKey, sealed: SealedSeed, context: Bytes, account: Bytes, plaintext: Bytes)
    requires sealed.scheme == 2
    ensures var r := OpenWithAccountId(master, sealed, context, account);
      && (r == Ok(plaintext) <==> account != [] && SealedIn(sealed, master, context + [0] + account, plaintext))
      && (r == Err(AccountIdentityRequired) <==> account == [])
  {
    OpensIff(master, sealed.(scheme := 1), context + [0] + account, plaintext);
  }

  /** What sealing records beside the ciphertext. */
  lemma SealedUnder(master: MasterKey, plaintext: Bytes, context: Bytes, account: Bytes, salt: Salt, nonce: Nonce)
    ensures var sealed := Seal(master, plaintext, context, salt, nonce);
      SealedIn(sealed, master, context, plaintext) && sealed.scheme == 1 && sealed.salt == salt && sealed.nonce == nonce
    ensures var bound := SealWithAccountId(master, plaintext, context, account, salt, nonce);
      if account == [] then bound == Err(AccountIdentityRequired)
      else
        && bound.Ok? && SealedIn(bound.value, master, context + [0] + account, plaintext)
        && bound.value.scheme == 2 && bound.value.salt == salt && bound.value.nonce == nonce
  {
  }

  /** `reseal` takes the legacy tag 0 for V1, and refuses what `open` refuses. */
  lemma ResealIff(oldKey: MasterKey, newKey: MasterKey, sealed: SealedSeed, context: Bytes, salt: Salt, nonce: Nonce)
    ensures var r := Reseal(oldKey, newKey, sealed, context, salt, nonce);
      && (r.Ok? <==> sealed.scheme in {0, 1} && exists p :: SealedIn(sealed, oldKey, context, p))
      && (r.Ok? ==> forall p :: SealedIn(sealed, oldKey, context, p) ==>
            r.value == Seal(newKey, p, context, salt, nonce))
      && (sealed.scheme == 2 ==> r == Err(AccountIdentityRequired))
      && (sealed.scheme > 2 ==> r == Err(UnknownScheme(sealed.scheme)))
  {
    if sealed.ciphertext.Gcm? {
      assert SealedIn(sealed, oldKey, context, sealed.ciphertext.plaintext) ||
             forall p :: !SealedIn(sealed, oldKey, context, p);
    }
  }

  /** Exactly which stored columns make a record. */
  lemma FromPartsIff(ciphertext: Ciphertext, nonce: Bytes, salt: Bytes, scheme: nat)
    ensures var r := FromParts(ciphertext, nonce, salt, scheme);
      && (r.Ok? <==> scheme in {1, 2} && |nonce| == 12 && |salt| == 32)
      && (r.Ok? ==> r.value.ciphertext == ciphertext && r.value.nonce == nonce && r.value.salt == salt
                    && r.value.scheme == scheme)
      && (r.Err? ==> r.error == if scheme in {1, 2} then InvalidNonceLength else UnknownScheme(scheme))
  {
  }

  lemma ContextsSeparate(a: Bytes, account: Bytes, b: Bytes, other: Bytes)
    requires 0 !in a && 0 !in b && BoundContext(a, account) == BoundContext(b, other)
    ensures a == b && account == other
  {
    var s := BoundContext(a, account);
    assert s[|a|] == 0 && s[|b|] == 0;
    assert s[..|a|] == a && s[..|b|] == b;
    assert s[|a| + 1..] == account && s[|b| + 1..] == other;
  }

  /** An account-bound record opens for its own key, context and account only; contexts never hold a NUL. */
  lemma BoundOpensOnly(master: MasterKey, plaintext: Bytes, context: Bytes, account: Bytes, salt: Salt, nonce: Nonce,
                       key: MasterKey, other: Bytes, claimed: Bytes)
    requires 0 !in context && 0 !in other && account != [] && claimed != []
    ensures SealWithAccountId(master, plaintext, context, account, salt, nonce).Ok?
    ensures var sealed := SealWithAccountId(master, plaintext, context, account, salt, nonce).value;
      OpenWithAccountId(key, sealed, other, claimed)
         == if key == master && other == context && claimed == account then Ok(plaintext) else Err(DecryptionFailed)
  {
    if BoundContext(context, account) == BoundContext(other, claimed) {
      ContextsSeparate(context, account, other, claimed);
    }
  }

  /** Resealing keeps the secret and leaves the old key behind, for either scheme. */
  lemma ResealKeepsSecret(oldKey: MasterKey, newKey: MasterKey, sealed: SealedSeed, context: Bytes, account: Bytes,
                          salt: Salt, nonce: Nonce, key: MasterKey)
    requires sealed.scheme == SCHEME_V1 && Open(oldKey, sealed, context).Ok? && 0 !in context && account != []
    ensures var secret := Open(oldKey, sealed, context).value;
      var rotated := Reseal(oldKey, newKey, sealed, context, salt, nonce);
      var bound := ResealWithAccountId(oldKey, newKey, sealed, context, account, salt, nonce);
      && rotated.Ok?
      && Open(key, rotated.value, context) == (if key == newKey then Ok(secret) else Err(DecryptionFailed))
      && bound.Ok?
      && OpenWithAccountId(key, bound.value, context, account)
         == (if key == newKey then Ok(secret) else Err(DecryptionFailed))
  {
    var secret := Open(oldKey, sealed, context).value;
    SealedOpensOnly(newKey, secret, context, salt, nonce, key, context);
    BoundOpensOnly(newKey, secret, context, account, salt, nonce, key, context, account);
  }
}
