/** At-rest protection of OAuth tokens: `encryptToken` and `decryptToken`.
    The blob format is `hex(iv) ":" hex(tag) ":" hex(ciphertext)`. The
    cipher (AES-256-GCM, NIST SP 800-38D) and the key derivation (SHA-256,
    FIPS 180-4) are not modelled: they are function values passed in, with
    one stated law, and the random 12-byte iv is a parameter. */
module TokenCrypto {
  import opened Wrappers
  import opened Text

  newtype byte = x: int | 0 <= x < 256
  type Bytes = seq<byte>

  /** The `node:crypto` calls the file makes. `digest` derives the 32-byte
      key from the secret; `seal` encrypts the UTF-8 bytes of a string under
      key and iv, giving the tag and the ciphertext, or `None` when the
      library throws; `open` checks the tag and decrypts, or gives `None`
      when the library throws (bad tag, bad iv or tag length). */
  datatype Primitives = Primitives(
    digest: string -> Bytes,
    seal: (Bytes, Bytes, string) -> Option<(Bytes, Bytes)>,
    open: (Bytes, Bytes, Bytes, Bytes) -> Option<string>)

  /** The authenticated cipher's correctness: opening what was sealed under
      the same key and iv gives back the plaintext. */
  ghost predicate Inverts(p: Primitives) {
    forall key, iv, text :: p.seal(key, iv, text).Some? ==>
      p.open(key, iv, p.seal(key, iv, text).value.0, p.seal(key, iv, text).value.1) == Some(text)
  }

  /** Length of the iv `randomBytes(12)` draws. */
  const IvLength: nat := 12

  // ---------------------------------------------------------------------
  // Hex, as Buffer#toString('hex') writes it and Buffer.from(_, 'hex') reads it

  const HexDigits: string := "0123456789abcdef"

  function HexByte(b: byte): (h: string)
    ensures |h| == 2 && ':' !in h
  {
    [HexDigits[b / 16], HexDigits[b % 16]]
  }

  /** Lower-case hex, two digits per byte. */
  function Hex(bs: Bytes): (h: string)
    ensures |h| == 2 * |bs|
    ensures ':' !in h
    decreases |bs|
  {
    if |bs| == 0 then "" else HexByte(bs[0]) + Hex(bs[1..])
  }

  function HexValue(c: char): Option<byte> {
    if '0' <= c <= '9' then Some((c as int - '0' as int) as byte)
    else if 'a' <= c <= 'f' then Some((c as int - 'a' as int + 10) as byte)
    else if 'A' <= c <= 'F' then Some((c as int - 'A' as int + 10) as byte)
    else None
  }

  /** Node's lenient hex decoding: pairs of hex digits up to the first pair
      that is not one; a trailing odd digit is dropped. It never throws. */
  function FromHex(h: string): Bytes
    decreases |h|
  {
    if |h| < 2 then []
    else
      match (HexValue(h[0]), HexValue(h[1]))
      case (Some(hi), Some(lo)) => [(hi as int * 16 + lo as int) as byte] + FromHex(h[2..])
      case _ => []
  }

  /** Each digit reads back as its value. */
  lemma HexValueOfDigit(d: int)
    requires 0 <= d < 16
    ensures HexValue(HexDigits[d]) == Some(d as byte)
  {
    if d < 10 {
      assert HexDigits[d] as int == '0' as int + d;
    } else {
      assert HexDigits[d] as int == 'a' as int + d - 10;
    }
  }

  /** Decoding reads back what encoding wrote. */
  lemma {:induction false} FromHexOfHex(bs: Bytes)
    ensures FromHex(Hex(bs)) == bs
    decreases |bs|
  {
    if |bs| > 0 {
      var h := Hex(bs);
      var b := bs[0];
      var hi, lo := b as int / 16, b as int % 16;
      assert h == [HexDigits[hi], HexDigits[lo]] + Hex(bs[1..]);
      HexValueOfDigit(hi);
      HexValueOfDigit(lo);
      assert h[2..] == Hex(bs[1..]);
      assert (hi * 16 + lo) as byte == b;
      FromHexOfHex(bs[1..]);
    }
  }

  // ---------------------------------------------------------------------
  // encryptToken / decryptToken

  /** The three hex fields joined with `:`. */
  function Blob(iv: Bytes, tag: Bytes, ct: Bytes): string {
    Hex(iv) + ":" + Hex(tag) + ":" + Hex(ct)
  }

  /** `encryptToken(token, secret)` with the iv it would draw: nothing to
      encrypt gives `null`; a cipher failure gives `null`; otherwise the blob. */
  function EncryptToken(token: Option<string>, secret: string, iv: Bytes, p: Primitives): (r: Option<string>)
    ensures Blank(token) ==> r.None?
    ensures !Blank(token) ==> (r.Some? <==> p.seal(p.digest(secret), iv, token.value).Some?)
  {
    if Blank(token) then None
    else
      var sealed := p.seal(p.digest(secret), iv, token.value);
      if sealed.None? then None
      else
        var (tag, ct) := sealed.value;
        Some(Blob(iv, tag, ct))
  }

  /** `decryptToken(blob, secret)`: nothing to decrypt gives `null`; a value
      that does not split into exactly three `:` parts is returned as it is
      (stored before encryption was introduced); a three-part value is
      decrypted, and any failure gives `null`. The iv and the tag go through
      the lenient `Buffer.from`, but the ciphertext goes to the decipher's
      `update` with the hex encoding, which refuses an odd number of digits:
      that throw is caught too. */
  function DecryptToken(blob: Option<string>, secret: string, p: Primitives): (r: Option<string>)
    ensures Blank(blob) ==> r.None?
    ensures !Blank(blob) && |Split(blob.value, ':')| == 3 && |Split(blob.value, ':')[2]| % 2 != 0 ==> r.None?
  {
    if Blank(blob) then None
    else
      var parts := Split(blob.value, ':');
      if |parts| != 3 then Some(blob.value)
      else if |parts[2]| % 2 != 0 then None
      else p.open(p.digest(secret), FromHex(parts[0]), FromHex(parts[1]), FromHex(parts[2]))
  }

  /** Every blob splits into exactly its three hex fields. */
  lemma BlobParts(iv: Bytes, tag: Bytes, ct: Bytes)
    ensures Split(Blob(iv, tag, ct), ':') == [Hex(iv), Hex(tag), Hex(ct)]
  {
    var parts := [Hex(iv), Hex(tag), Hex(ct)];
    var tail := [Hex(tag), Hex(ct)];
    assert parts[1..] == tail && tail[1..] == [Hex(ct)];
    assert Join(tail, ':') == Hex(tag) + [':'] + Hex(ct);
    assert Join(parts, ':') == Hex(iv) + [':'] + Join(tail, ':');
    assert Join(parts, ':') == Blob(iv, tag, ct);
    assert NoneContains(parts, ':');
    SplitOfJoin(parts, ':');
  }

  /** The output format: three `:`-separated fields, the first the iv in hex
      (24 digits for a 12-byte iv), the second the tag, the third the
      ciphertext. */
  lemma EncryptedFormat(token: Option<string>, secret: string, iv: Bytes, p: Primitives)
    requires EncryptToken(token, secret, iv, p).Some?
    ensures var parts := Split(EncryptToken(token, secret, iv, p).value, ':');
      && |parts| == 3
      && parts[0] == Hex(iv)
      && (|iv| == IvLength ==> |parts[0]| == 24)
      && parts[1] == Hex(p.seal(p.digest(secret), iv, token.value).value.0)
      && parts[2] == Hex(p.seal(p.digest(secret), iv, token.value).value.1)
  {
    var (tag, ct) := p.seal(p.digest(secret), iv, token.value).value;
    BlobParts(iv, tag, ct);
  }

  /** Round trip: with the same secret, decryption gives back what was
      encrypted, since both sides derive the key from the secret the
      same way. */
  lemma RoundTrip(token: Option<string>, secret: string, iv: Bytes, p: Primitives)
    requires Inverts(p)
    requires EncryptToken(token, secret, iv, p).Some?
    ensures DecryptToken(EncryptToken(token, secret, iv, p), secret, p) == token
  {
    var key := p.digest(secret);
    var (tag, ct) := p.seal(key, iv, token.value).value;
    BlobParts(iv, tag, ct);
    FromHexOfHex(iv);
    FromHexOfHex(tag);
    FromHexOfHex(ct);
  }

  /** Two encryptions under different ivs give different blobs, so a fresh
      iv per call never repeats a stored value. */
  lemma DistinctIvsDistinctBlobs(token: Option<string>, secret: string, iv1: Bytes, iv2: Bytes, p: Primitives)
    requires iv1 != iv2
    requires EncryptToken(token, secret, iv1, p).Some? && EncryptToken(token, secret, iv2, p).Some?
    ensures EncryptToken(token, secret, iv1, p) != EncryptToken(token, secret, iv2, p)
  {
    EncryptedFormat(token, secret, iv1, p);
    EncryptedFormat(token, secret, iv2, p);
    FromHexOfHex(iv1);
    FromHexOfHex(iv2);
  }

  /** Legacy passthrough: a non-empty value that is not three `:` parts comes
      back unchanged, whatever the secret. */
  lemma LegacyPassthrough(blob: string, secret: string, p: Primitives)
    requires blob != "" && |Split(blob, ':')| != 3
    ensures DecryptToken(Some(blob), secret, p) == Some(blob)
  {
  }

  /** The failure and passthrough cases stay apart: a non-empty value that
      decrypts to `null` is always a three-part value, and a three-part value
      with a whole number of ciphertext bytes gets the cipher's answer. */
  lemma FailureIsNotPassthrough(blob: string, secret: string, p: Primitives)
    requires blob != ""
    ensures DecryptToken(Some(blob), secret, p).None? ==> |Split(blob, ':')| == 3
    ensures |Split(blob, ':')| == 3 && |Split(blob, ':')[2]| % 2 == 0 ==>
      DecryptToken(Some(blob), secret, p) ==
        (var parts := Split(blob, ':');
         p.open(p.digest(secret), FromHex(parts[0]), FromHex(parts[1]), FromHex(parts[2])))
  {
  }

  /** Appending a digit to a blob lengthens its ciphertext field only. */
  lemma AppendedDigitParts(iv: Bytes, tag: Bytes, ct: Bytes)
    ensures Split(Blob(iv, tag, ct) + "0", ':') == [Hex(iv), Hex(tag), Hex(ct) + "0"]
  {
    var a, b, c := Hex(iv), Hex(tag), Hex(ct) + "0";
    assert ':' !in c;
    assert Blob(iv, tag, ct) + "0" == a + [':'] + (b + [':'] + c);
    assert IndexOf(c, ':') == -1;
    SplitCons(b, ':', c);
    SplitCons(a, ':', b + [':'] + c);
  }

  /** One appended digit leaves an odd number of hex digits. */
  lemma AppendedDigitOdd(ct: Bytes)
    ensures |Hex(ct) + "0"| % 2 == 1
  {
    assert |Hex(ct) + "0"| == 2 * |ct| + 1;
  }

  /** A blob with one more digit appended to its ciphertext no longer
      decrypts: the ciphertext field has an odd number of digits. */
  lemma TamperedBlobRejected(iv: Bytes, tag: Bytes, ct: Bytes, secret: string, p: Primitives)
    ensures DecryptToken(Some(Blob(iv, tag, ct) + "0"), secret, p) == None
  {
    AppendedDigitParts(iv, tag, ct);
    AppendedDigitOdd(ct);
  }
}
