/**
  The credential file and the check behind the `/auth` endpoint of
  lib/server.js.

  The credential file holds a salt, the derived key of the administrator's
  user name and the derived key of the password, 64 bytes each, in that order
  (the command-line tool writes it as their concatenation). A login supplies
  a user name and a password; both must be non-empty and both derived keys
  must equal the stored ones. The key derivation (pbkdf2 with 1000
  iterations and a 64-byte output) is a parameter `kdf` of the operations
  that use it.
*/
module Credentials {
  import opened Wrappers

  newtype byte = x: int | 0 <= x < 256

  const SaltLength := 64
  const HashLength := 64
  const AuthFileLength := SaltLength + 2 * HashLength

  /** The contents of the credential file (the `auth` object without its tokens). */
  datatype AuthRecord = AuthRecord(salt: seq<byte>, usernameHash: seq<byte>, passwordHash: seq<byte>)

  datatype AuthError = InvalidAuthFile

  /** pbkdf2 of a secret with a salt, at the fixed iteration count and output length. */
  type Kdf = (string, seq<byte>) -> seq<byte>

  /** A record whose fields have the lengths the file layout gives them. */
  predicate WellFormed(rec: AuthRecord)
  {
    |rec.salt| == SaltLength && |rec.usernameHash| == HashLength && |rec.passwordHash| == HashLength
  }

  /** The bytes of the credential file written for `rec`: salt, user-name key, password key. */
  function AuthFileBytes(rec: AuthRecord): seq<byte>
  {
    rec.salt + rec.usernameHash + rec.passwordHash
  }

  /** Splits the credential file; any length other than 192 bytes is rejected. */
  function ParseAuthFile(buf: seq<byte>): (r: Result<AuthRecord, AuthError>)
    ensures r.Success? <==> |buf| == AuthFileLength
    ensures r.Success? ==> WellFormed(r.value) && AuthFileBytes(r.value) == buf
  {
    if |buf| != AuthFileLength then Failure(InvalidAuthFile)
    else
      var rec := AuthRecord(buf[..SaltLength], buf[SaltLength..SaltLength + HashLength], buf[SaltLength + HashLength..]);
      assert AuthFileBytes(rec) == buf;
      Success(rec)
  }

  /** Reading back a file written for a well-formed record yields that record. */
  lemma AuthFileRoundTrip(rec: AuthRecord)
    requires WellFormed(rec)
    ensures ParseAuthFile(AuthFileBytes(rec)) == Success(rec)
  {
    var buf := AuthFileBytes(rec);
    assert buf[..SaltLength] == rec.salt;
    assert buf[SaltLength..SaltLength + HashLength] == rec.usernameHash;
    assert buf[SaltLength + HashLength..] == rec.passwordHash;
  }

  /**
    `compareBuffers`: byte-wise equality. It returns at the first mismatching
    byte, so its running time depends on the inputs.
  */
  method CompareBuffers(a: seq<byte>, b: seq<byte>) returns (equal: bool)
    ensures equal <==> a == b
  {
    if |a| != |b| {
      return false;
    }
    var i := 0;
    while i < |a|
      invariant 0 <= i <= |a|
      invariant a[..i] == b[..i]
    {
      if a[i] != b[i] {
        return false;
      }
      i := i + 1;
    }
    assert a == a[..i] && b == b[..i];
    return true;
  }

  /** The credentials `/auth` accepts (an absent form field is the empty string). */
  predicate Accepts(rec: AuthRecord, kdf: Kdf, username: string, password: string)
  {
    && username != ""
    && password != ""
    && kdf(username, rec.salt) == rec.usernameHash
    && kdf(password, rec.salt) == rec.passwordHash
  }

  /** The check of `/auth`: empty fields first, then both derived keys. */
  method CheckCredentials(rec: AuthRecord, kdf: Kdf, username: string, password: string) returns (ok: bool)
    ensures ok <==> Accepts(rec, kdf, username, password)
  {
    if username == "" || password == "" {
      return false;
    }
    ok := CompareBuffers(kdf(username, rec.salt), rec.usernameHash);
    if ok {
      ok := CompareBuffers(kdf(password, rec.salt), rec.passwordHash);
    }
  }

  /**
    The credential file the command-line tool writes for a user name (never
    empty: the tool's pattern needs a character) and a password is read back
    intact. The same user name and password are then accepted exactly when the
    password is non-empty; the tool also writes a file for the empty password,
    with which nobody can log in.
  */
  lemma CreatedCredentialsAccepted(kdf: Kdf, salt: seq<byte>, username: string, password: string)
    requires |salt| == SaltLength
    requires |kdf(username, salt)| == HashLength && |kdf(password, salt)| == HashLength
    requires username != ""
    ensures var rec := AuthRecord(salt, kdf(username, salt), kdf(password, salt));
            && ParseAuthFile(AuthFileBytes(rec)) == Success(rec)
            && (Accepts(rec, kdf, username, password) <==> password != "")
  {
    AuthFileRoundTrip(AuthRecord(salt, kdf(username, salt), kdf(password, salt)));
  }

  /**
    When the key derivation separates two passwords, a login with the wrong
    one is refused even with the right user name (and symmetrically for the
    user name).
  */
  lemma OtherSecretsRejected(rec: AuthRecord, kdf: Kdf, username: string, password: string, other: string)
    requires Accepts(rec, kdf, username, password)
    requires kdf(other, rec.salt) != kdf(password, rec.salt)
    requires kdf(other, rec.salt) != kdf(username, rec.salt)
    ensures !Accepts(rec, kdf, username, other)
    ensures !Accepts(rec, kdf, other, password)
  {
  }
}
