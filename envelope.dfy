/** The encrypted letter file of src/crypto/crypto.ts: the envelope
    `salt[16] ‖ iv[12] ‖ ciphertext+tag`, written with `Uint8Array.set` at
    fixed offsets by `encrypt` and cut with `slice` by `decrypt`, in base64.
    PBKDF2-SHA-256, AES-256-GCM and the UTF-8 codecs are foreign calls: they
    are fields of a `Primitives` value, and what is required of them, that
    AES-GCM decryption undoes encryption and that UTF-8 decoding undoes
    encoding up to a leading byte-order mark, is the predicate `Sound`,
    used only as a precondition. The random salt and iv are parameters. */
module Envelope {
  import opened Wrappers
  import opened Text
  import opened Base64

  const SaltLength: nat := 16
  const IvLength: nat := 12
  const Pbkdf2Iterations: nat := 100000
  /** The AES-256 key length: 256 bits, that is 32 bytes. */
  const KeyLength: nat := 32
  /** The length of an AES-GCM authentication tag, in bytes. */
  const TagLength: nat := 16
  /** The shortest data `decrypt` goes on with (line 85). */
  const MinLength: nat := SaltLength + IvLength + 1

  /** The foreign calls, as functions.
      - `utf8Encode`: `TextEncoder.encode` (Node: a string as UTF-8).
      - `utf8Decode`: `TextDecoder.decode`, which is not fatal: invalid
        input gives replacement characters, not an error; and, as its
        `ignoreBOM` option is left false, it drops a leading U+FEFF.
      - `pbkdf2(password, salt, iterations, keyLength)`: PBKDF2 with
        HMAC-SHA-256.
      - `gcmEncrypt(key, iv, plaintext)`: AES-256-GCM, giving the
        encrypted bytes and the authentication tag separately, as Node's
        cipher does.
      - `gcmDecrypt(key, iv, data)`: AES-256-GCM decryption of the
        encrypted bytes followed by the tag; `None` when the tag does not
        authenticate. */
  datatype Primitives = Primitives(
    utf8Encode: string -> seq<Byte>,
    utf8Decode: seq<Byte> -> string,
    pbkdf2: (seq<Byte>, seq<Byte>, nat, nat) -> seq<Byte>,
    gcmEncrypt: (seq<Byte>, seq<Byte>, seq<Byte>) -> (seq<Byte>, seq<Byte>),
    gcmDecrypt: (seq<Byte>, seq<Byte>, seq<Byte>) -> Option<seq<Byte>>)

  /** The byte-order mark, U+FEFF. */
  const Bom: char := '\U{FEFF}'

  /** A string that does not start with a byte-order mark. */
  predicate NoBom(s: string) {
    |s| == 0 || s[0] != Bom
  }

  /** What `new TextDecoder()` makes of the UTF-8 bytes of `s`: `s` itself,
      except that one leading byte-order mark, and only one, is dropped. */
  function StripBom(s: string): (r: string)
    ensures NoBom(s) ==> r == s
    ensures !NoBom(s) ==> s == [Bom] + r
  {
    if NoBom(s) then s else s[1..]
  }

  /** UTF-8 decoding undoes encoding, up to a leading byte-order mark.
      (A Dafny `char` is a Unicode scalar value, so there is no lone
      surrogate for the encoder to replace.) */
  ghost predicate CodecSound(p: Primitives) {
    forall s :: p.utf8Decode(p.utf8Encode(s)) == StripBom(s)
  }

  /** The AES-GCM tag is 16 bytes. */
  ghost predicate TagSized(p: Primitives) {
    forall key, iv, pt :: |p.gcmEncrypt(key, iv, pt).1| == TagLength
  }

  /** AES-GCM decryption with the same key and iv undoes encryption. */
  ghost predicate GcmSound(p: Primitives) {
    forall key, iv, pt ::
      p.gcmDecrypt(key, iv, p.gcmEncrypt(key, iv, pt).0 + p.gcmEncrypt(key, iv, pt).1) == Some(pt)
  }

  /** What is required of the foreign calls. */
  ghost predicate Sound(p: Primitives) {
    CodecSound(p) && TagSized(p) && GcmSound(p)
  }

  /** `deriveKey` (lines 22-47): PBKDF2 over the UTF-8 password. */
  function DeriveKey(p: Primitives, password: string, salt: seq<Byte>): seq<Byte> {
    p.pbkdf2(p.utf8Encode(password), salt, Pbkdf2Iterations, KeyLength)
  }

  /** `crypto.subtle.encrypt` with AES-GCM: the encrypted bytes followed
      by the tag. */
  function WebEncrypt(p: Primitives, key: seq<Byte>, iv: seq<Byte>, plaintext: seq<Byte>): seq<Byte> {
    var (encrypted, tag) := p.gcmEncrypt(key, iv, plaintext);
    encrypted + tag
  }

  // ---------------------------------------------------------------------
  // Layout
  // ---------------------------------------------------------------------

  /** The three fields of an envelope. */
  datatype Fields = Fields(salt: seq<Byte>, iv: seq<Byte>, ciphertext: seq<Byte>)

  /** The envelope bytes: salt, then iv, then ciphertext. */
  function Pack(f: Fields): (data: seq<Byte>)
    ensures |data| == |f.salt| + |f.iv| + |f.ciphertext|
  {
    f.salt + f.iv + f.ciphertext
  }

  /** `decrypt`'s slices (lines 89-91). */
  function Unpack(data: seq<Byte>): (f: Fields)
    requires |data| >= SaltLength + IvLength
    ensures |f.salt| == SaltLength && |f.iv| == IvLength
    ensures |f.ciphertext| == |data| - SaltLength - IvLength
  {
    Fields(data[..SaltLength], data[SaltLength..SaltLength + IvLength], data[SaltLength + IvLength..])
  }

  /** Slicing a packed envelope gives back its fields. */
  lemma UnpackPack(f: Fields)
    requires |f.salt| == SaltLength && |f.iv| == IvLength
    ensures Unpack(Pack(f)) == f
  {
    var data := Pack(f);
    assert data[..SaltLength] == f.salt;
    assert data[SaltLength..SaltLength + IvLength] == f.iv;
    assert data[SaltLength + IvLength..] == f.ciphertext;
  }

  /** Packing the slices of data gives back the data. */
  lemma PackUnpack(data: seq<Byte>)
    requires |data| >= SaltLength + IvLength
    ensures Pack(Unpack(data)) == data
  {
    var f := Unpack(data);
    assert data == data[..SaltLength] + data[SaltLength..SaltLength + IvLength] + data[SaltLength + IvLength..];
  }

  // ---------------------------------------------------------------------
  // encrypt (lines 49-72)
  // ---------------------------------------------------------------------

  /** The envelope `encrypt` builds for a salt and an iv. */
  function Sealed(p: Primitives, plaintext: string, password: string, salt: seq<Byte>, iv: seq<Byte>): Fields {
    Fields(salt, iv, WebEncrypt(p, DeriveKey(p, password, salt), iv, p.utf8Encode(plaintext)))
  }

  /** What `encrypt` returns. */
  function Encrypted(p: Primitives, plaintext: string, password: string, salt: seq<Byte>, iv: seq<Byte>): (r: string)
    ensures |r| % 4 == 0
  {
    Encode(Pack(Sealed(p, plaintext, password, salt, iv)))
  }

  /** `Uint8Array.prototype.set(src, offset)`: copies `src` into `a` from
      `offset` on and leaves every other element alone. */
  method Set(a: array<Byte>, src: seq<Byte>, offset: nat)
    requires offset + |src| <= a.Length
    modifies a
    ensures forall k :: 0 <= k < a.Length ==>
      a[k] == if offset <= k < offset + |src| then src[k - offset] else old(a[k])
  {
    for i := 0 to |src|
      invariant forall k :: 0 <= k < a.Length ==>
        a[k] == if offset <= k < offset + i then src[k - offset] else old(a[k])
    {
      a[offset + i] := src[i];
    }
  }

  /** `encrypt`: the salt and the iv stand for the two calls to
      `crypto.getRandomValues`, which fill arrays of 16 and 12 bytes. */
  method Encrypt(p: Primitives, plaintext: string, password: string, salt: seq<Byte>, iv: seq<Byte>)
    returns (r: string)
    requires |salt| == SaltLength && |iv| == IvLength
    ensures r == Encrypted(p, plaintext, password, salt, iv)
  {
    var key := DeriveKey(p, password, salt);
    var ciphertext := WebEncrypt(p, key, iv, p.utf8Encode(plaintext));
    var result := new Byte[SaltLength + IvLength + |ciphertext|](_ => 0);
    Set(result, salt, 0);
    Set(result, iv, SaltLength);
    Set(result, ciphertext, SaltLength + IvLength);
    assert result[..] == Pack(Fields(salt, iv, ciphertext)) by {
      var expected := Pack(Fields(salt, iv, ciphertext));
      forall k | 0 <= k < result.Length ensures result[k] == expected[k] {
        if k < SaltLength {
          assert expected[k] == salt[k];
        } else if k < SaltLength + IvLength {
          assert expected[k] == iv[k - SaltLength];
        } else {
          assert expected[k] == ciphertext[k - SaltLength - IvLength];
        }
      }
    }
    r := ToBase64(result);
  }

  // ---------------------------------------------------------------------
  // decrypt (lines 74-105)
  // ---------------------------------------------------------------------

  /** The two errors `decrypt` throws. */
  datatype Failure = Corrupted | WrongPassword

  /** The message of each error. */
  function Message(f: Failure): (m: string)
    ensures m != ""
  {
    match f
    case Corrupted => "The encrypted file appears to be corrupted."
    case WrongPassword => "Incorrect password or corrupted data."
  }

  /** What `decrypt` returns or throws. */
  function Decrypted(p: Primitives, encryptedBase64: string, password: string): Result<string, Failure> {
    match Decode(Trim(encryptedBase64))
    case None => Err(Corrupted)
    case Some(data) =>
      if |data| < MinLength then Err(Corrupted)
      else
        var f := Unpack(data);
        match p.gcmDecrypt(DeriveKey(p, password, f.salt), f.iv, f.ciphertext)
        case None => Err(WrongPassword)
        case Some(plain) => Ok(p.utf8Decode(plain))
  }

  /** `decrypt`: the input is trimmed and decoded, the length checked,
      the envelope sliced, the key derived and the ciphertext opened. */
  method Decrypt(p: Primitives, encryptedBase64: string, password: string)
    returns (r: Result<string, Failure>)
    ensures r == Decrypted(p, encryptedBase64, password)
  {
    var decoded := FromBase64(Trim(encryptedBase64));
    if decoded.None? {
      return Err(Corrupted);
    }
    var data := decoded.value;
    if |data| < SaltLength + IvLength + 1 {
      return Err(Corrupted);
    }
    var salt := data[..SaltLength];
    var iv := data[SaltLength..SaltLength + IvLength];
    var ciphertext := data[SaltLength + IvLength..];
    var key := DeriveKey(p, password, salt);
    var decrypted := p.gcmDecrypt(key, iv, ciphertext);
    if decrypted.None? {
      return Err(WrongPassword);
    }
    r := Ok(p.utf8Decode(decrypted.value));
  }

  // ---------------------------------------------------------------------
  // Properties
  // ---------------------------------------------------------------------

  /** A base64 encoding has no whitespace to trim. */
  lemma TrimEncoded(b: seq<Byte>)
    ensures Trim(Encode(b)) == Encode(b)
  {
    var e := Encode(b);
    if e != [] {
      assert IsDigit64(e[0]) || e[0] == '=';
      assert IsDigit64(e[|e| - 1]) || e[|e| - 1] == '=';
    }
    TrimOfTrimmed(e);
  }

  /** An envelope made by `encrypt` is long enough for `decrypt`. */
  lemma SealedLength(p: Primitives, plaintext: string, password: string, salt: seq<Byte>, iv: seq<Byte>)
    requires TagSized(p)
    requires |salt| == SaltLength && |iv| == IvLength
    ensures |Pack(Sealed(p, plaintext, password, salt, iv))| >= MinLength
  {
    var key := DeriveKey(p, password, salt);
    assert |p.gcmEncrypt(key, iv, p.utf8Encode(plaintext)).1| == TagLength;
  }

  /** `decrypt(encrypt(t, pw), pw)` is `t` without a leading byte-order
      mark, for any salt and iv, given that the foreign calls are sound:
      `t` itself when it does not start with U+FEFF. */
  lemma DecryptEncrypt(p: Primitives, plaintext: string, password: string, salt: seq<Byte>, iv: seq<Byte>)
    requires Sound(p)
    requires |salt| == SaltLength && |iv| == IvLength
    ensures Decrypted(p, Encrypted(p, plaintext, password, salt, iv), password) == Ok(StripBom(plaintext))
    ensures NoBom(plaintext) ==> Decrypted(p, Encrypted(p, plaintext, password, salt, iv), password) == Ok(plaintext)
  {
    var f := Sealed(p, plaintext, password, salt, iv);
    var data := Pack(f);
    TrimEncoded(data);
    DecodeEncode(data);
    SealedLength(p, plaintext, password, salt, iv);
    UnpackPack(f);
    var key := DeriveKey(p, password, salt);
    var pt := p.utf8Encode(plaintext);
    assert p.gcmDecrypt(key, iv, p.gcmEncrypt(key, iv, pt).0 + p.gcmEncrypt(key, iv, pt).1) == Some(pt);
  }

  /** A letter that starts with a byte-order mark comes back without it. */
  lemma BomDropped(p: Primitives, rest: string, password: string, salt: seq<Byte>, iv: seq<Byte>)
    requires Sound(p)
    requires |salt| == SaltLength && |iv| == IvLength
    ensures Decrypted(p, Encrypted(p, [Bom] + rest, password, salt, iv), password) == Ok(rest)
  {
    DecryptEncrypt(p, [Bom] + rest, password, salt, iv);
    assert ([Bom] + rest)[1..] == rest;
  }

  /** Input that does not decode, or decodes to fewer than 29 bytes, is
      reported as corrupted whatever the password and whatever the foreign
      calls do: the verdict comes before any key is derived. Any other
      input is never reported as corrupted. */
  lemma CorruptedExactly(p: Primitives, encryptedBase64: string, password: string)
    ensures Decrypted(p, encryptedBase64, password) == Err(Corrupted) <==>
      Decode(Trim(encryptedBase64)).None? || |Decode(Trim(encryptedBase64)).value| < MinLength
  {
  }

  /** The corrupted verdict does not depend on the password or on the
      primitives. */
  lemma CorruptedBeforeKey(p: Primitives, q: Primitives, encryptedBase64: string, password: string, other: string)
    requires Decrypted(p, encryptedBase64, password) == Err(Corrupted)
    ensures Decrypted(q, encryptedBase64, other) == Err(Corrupted)
  {
  }

  /** The wrong-password message is given exactly when the data decodes,
      is long enough, and AES-GCM refuses it: a wrong password and
      tampered data are not told apart. */
  lemma WrongPasswordExactly(p: Primitives, encryptedBase64: string, password: string)
    ensures Decrypted(p, encryptedBase64, password) == Err(WrongPassword) <==>
      Decode(Trim(encryptedBase64)).Some? &&
      |Decode(Trim(encryptedBase64)).value| >= MinLength &&
      var f := Unpack(Decode(Trim(encryptedBase64)).value);
      p.gcmDecrypt(DeriveKey(p, password, f.salt), f.iv, f.ciphertext).None?
  {
  }

  /** Whitespace around the file's text (a final line break, say) does
      not change what `decrypt` does. */
  lemma SurroundingBlanksIgnored(p: Primitives, encryptedBase64: string, password: string, before: string, after: string)
    requires Blank(before) && Blank(after)
    ensures Decrypted(p, before + encryptedBase64 + after, password) == Decrypted(p, encryptedBase64, password)
  {
    TrimAround(before, encryptedBase64, after);
  }
}
