/** Salted password hashing: the stored credential record, its verification
 *  and its format check. SHA-256 (FIPS 180-4), the base64 coder of section
 *  4 of RFC 4648, String.getBytes and SecureRandom are not modelled; the
 *  digest, the coder and the byte encoding are parameters, and the random
 *  salt is given as the bytes the generator produced. */
module PasswordUtil {
  import opened JavaLang

  const HashAlgorithm := "SHA-256"
  const SaltLength := 16
  /** The length of a SHA-256 digest in bytes. */
  const DigestLength := 32

  /** A character of the base64 alphabet, or its pad character. */
  predicate IsBase64Char(c: char)
  {
    'A' <= c <= 'Z' || 'a' <= c <= 'z' || '0' <= c <= '9' || c == '+' || c == '/' || c == '='
  }

  /** The library routines the class calls. */
  datatype Primitives = Primitives(
    digestAvailable: bool,                 // getInstance("SHA-256") does not throw
    sha256: seq<byte> -> seq<byte>,
    encode: seq<byte> -> string,           // Base64.getEncoder().encodeToString
    decode: string -> Option<seq<byte>>,   // Base64.getDecoder().decode; None where it throws
    getBytes: string -> seq<byte>)         // String.getBytes in the platform charset

  /** What the model relies on: SHA-256 yields 32 bytes, the encoder emits
   *  padded base64 of the standard length, and decoding inverts encoding. */
  ghost predicate Lawful(p: Primitives)
  {
    && (forall b :: |p.sha256(b)| == DigestLength)
    && (forall b :: |p.encode(b)| == 4 * ((|b| + 2) / 3))
    && (forall b, i :: 0 <= i < |p.encode(b)| ==> IsBase64Char(p.encode(b)[i]))
    && (forall b :: p.decode(p.encode(b)) == Some(b))
  }

  /** The record hashPassword builds from a salt: base64(salt) ":"
   *  base64(SHA-256(salt followed by the password's bytes)). */
  function StoredHash(p: Primitives, salt: seq<byte>, password: string): string
  {
    p.encode(salt) + ":" + p.encode(p.sha256(salt + p.getBytes(password)))
  }

  /** java.security.MessageDigest: update buffers input, digest hashes the
   *  buffer followed by its argument and resets. */
  class MessageDigest {
    const algorithm: seq<byte> -> seq<byte>
    var buffered: seq<byte>

    constructor (algorithm: seq<byte> -> seq<byte>)
      ensures this.algorithm == algorithm && buffered == []
    {
      this.algorithm := algorithm;
      buffered := [];
    }

    method Update(input: seq<byte>)
      modifies this
      ensures buffered == old(buffered) + input
    {
      buffered := buffered + input;
    }

    method Digest(input: seq<byte>) returns (d: seq<byte>)
      modifies this
      ensures d == algorithm(old(buffered) + input) && buffered == []
    {
      d := algorithm(buffered + input);
      buffered := [];
    }
  }

  /** MessageDigest.getInstance("SHA-256"). */
  method GetInstance(p: Primitives) returns (r: Result<MessageDigest>)
    ensures r.Ok? <==> p.digestAvailable
    ensures r.Thrown? ==> r.exception == NoSuchAlgorithm
    ensures r.Ok? ==> fresh(r.value) && r.value.algorithm == p.sha256 && r.value.buffered == []
  {
    if p.digestAvailable {
      var md := new MessageDigest(p.sha256);
      r := Ok(md);
    } else {
      r := Thrown(NoSuchAlgorithm);
    }
  }

  /** SecureRandom.nextBytes, filling salt with the bytes the generator
   *  produced. */
  method NextBytes(salt: array<byte>, random: seq<byte>)
    requires |random| == salt.Length
    modifies salt
    ensures salt[..] == random
  {
    forall i | 0 <= i < salt.Length {
      salt[i] := random[i];
    }
  }

  /** hashPassword. A missing digest algorithm surfaces as a wrapping
   *  RuntimeException; a null password fails when its bytes are taken. */
  method HashPassword(p: Primitives, password: Option<string>, random: seq<byte>) returns (r: Result<string>)
    requires |random| == SaltLength
    ensures !p.digestAvailable ==> r == Thrown(Runtime(NoSuchAlgorithm))
    ensures p.digestAvailable && password.None? ==> r == Thrown(NullPointer)
    ensures p.digestAvailable && password.Some? ==> r == Ok(StoredHash(p, random, password.value))
  {
    var salt := new byte[SaltLength];
    NextBytes(salt, random);
    var md := GetInstance(p);
    if md.Thrown? {
      return Thrown(Runtime(md.exception));
    }
    var digest := md.value;
    digest.Update(salt[..]);
    if password.None? {
      return Thrown(NullPointer);
    }
    var hashed := digest.Digest(p.getBytes(password.value));
    assert [] + salt[..] == random;
    r := Ok(p.encode(salt[..]) + ":" + p.encode(hashed));
  }

  /** verifyPassword: false on null, on a record that does not split into
   *  exactly two pieces, and wherever decoding or the digest throws;
   *  otherwise whether the stored digest equals the recomputed one. The
   *  ensures give necessary conditions only; VerifyStoredHash states the
   *  if-and-only-if on records made by HashPassword. */
  function VerifyPassword(p: Primitives, password: Option<string>, storedHash: Option<string>): (ok: bool)
    ensures ok ==> password.Some? && storedHash.Some? && p.digestAvailable
    ensures ok ==> |Split(storedHash.value, ':')| == 2
  {
    if storedHash.None? || password.None? then false
    else
      var parts := Split(storedHash.value, ':');
      if |parts| != 2 then false
      else
        match (p.decode(parts[0]), p.decode(parts[1]))
        case (Some(salt), Some(expected)) =>
          p.digestAvailable && expected == p.sha256(salt + p.getBytes(password.value))
        case _ => false
  }

  /** isValidHashFormat: two pieces, both non-empty. */
  function IsValidHashFormat(storedHash: Option<string>): (ok: bool)
    ensures ok ==> storedHash.Some? && ':' in storedHash.value
  {
    if storedHash.None? then false
    else
      var parts := Split(storedHash.value, ':');
      |parts| == 2 && parts[0] != [] && parts[1] != []
  }

  /** The base64 text of any byte string has no ':'. */
  lemma EncodingHasNoColon(p: Primitives, b: seq<byte>)
    requires Lawful(p)
    ensures ':' !in p.encode(b)
  {
  }

  /** A stored record is 24 + 1 + 44 characters with its only ':' at index
   *  24; it splits into the two encodings and passes the format check. */
  lemma StoredHashFormat(p: Primitives, salt: seq<byte>, password: string)
    requires Lawful(p) && |salt| == SaltLength
    ensures var r := StoredHash(p, salt, password);
      && |r| == 69 && r[24] == ':' && ':' !in r[..24] && ':' !in r[25..]
      && Split(r, ':') == [p.encode(salt), p.encode(p.sha256(salt + p.getBytes(password)))]
      && IsValidHashFormat(Some(r))
  {
    var e1 := p.encode(salt);
    var d := p.sha256(salt + p.getBytes(password));
    var e2 := p.encode(d);
    assert |e1| == 4 * ((16 + 2) / 3) == 24;
    assert |e2| == 4 * ((32 + 2) / 3) == 44;
    EncodingHasNoColon(p, salt);
    EncodingHasNoColon(p, d);
    var r := StoredHash(p, salt, password);
    assert r[..24] == e1 && r[25..] == e2;
    SplitTwo(e1, e2, ':');
  }

  /** A record built for one password verifies another exactly when the
   *  digest is available and the two salted digests coincide. */
  lemma VerifyStoredHash(p: Primitives, salt: seq<byte>, password: string, attempt: string)
    requires Lawful(p) && |salt| == SaltLength
    ensures VerifyPassword(p, Some(attempt), Some(StoredHash(p, salt, password))) <==>
      p.digestAvailable &&
      p.sha256(salt + p.getBytes(attempt)) == p.sha256(salt + p.getBytes(password))
  {
    StoredHashFormat(p, salt, password);
    var d := p.sha256(salt + p.getBytes(password));
    assert p.decode(p.encode(salt)) == Some(salt);
    assert p.decode(p.encode(d)) == Some(d);
  }

  /** Round trip: a password verifies against its own record. */
  lemma VerifyRoundTrip(p: Primitives, salt: seq<byte>, password: string)
    requires Lawful(p) && p.digestAvailable && |salt| == SaltLength
    ensures VerifyPassword(p, Some(password), Some(StoredHash(p, salt, password)))
  {
    VerifyStoredHash(p, salt, password, password);
  }

  /** The format check on the inputs the design discusses. */
  lemma HashFormatExamples()
    ensures !IsValidHashFormat(None)
    ensures !IsValidHashFormat(Some(""))
    ensures !IsValidHashFormat(Some("abcdef"))
    ensures !IsValidHashFormat(Some("abc:"))
    ensures !IsValidHashFormat(Some(":xyz"))
  {
    SplitTrailing("abc", ':');
    assert "abc" + [':'] == "abc:";
    SplitLeading("xyz", ':');
    assert [':'] + "xyz" == ":xyz";
  }

  /** A trailing ':' is dropped by the split, so "a:b:" passes. */
  lemma HashFormatIgnoresTrailingColon()
    ensures IsValidHashFormat(Some("a:b:"))
  {
    SplitTwoTrailing("a", "b", ':');
    assert "a" + [':'] + "b" + [':'] == "a:b:";
  }

  /** Verification asks less of the record than the format check: an empty
   *  salt piece is decoded to no bytes and accepted. */
  lemma VerifyAcceptsEmptySalt(p: Primitives, password: string)
    requires Lawful(p) && p.digestAvailable
    ensures var r := ":" + p.encode(p.sha256(p.getBytes(password)));
      VerifyPassword(p, Some(password), Some(r)) && !IsValidHashFormat(Some(r))
  {
    var d := p.sha256(p.getBytes(password));
    var e := p.encode(d);
    assert |e| == 4 * ((32 + 2) / 3) == 44;
    EncodingHasNoColon(p, d);
    SplitLeading(e, ':');
    assert [':'] + e == ":" + e;
    assert |p.encode([])| == 0;
    assert p.encode([]) == "";
    assert p.decode("") == Some([]);
    assert [] + p.getBytes(password) == p.getBytes(password);
  }
}
