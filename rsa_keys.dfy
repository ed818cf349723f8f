/** Loading the token-signing keys from configuration: a PEM string wins
    over a file path. The file system is a map from path to what reading
    that file gives. */
module RsaKeys {
  import opened Wrappers
  import opened PyStr

  /** One byte. */
  newtype byte = x: int | 0 <= x < 0x100

  type Bytes = seq<byte>

  /** Reading an existing file: its bytes, or the text of the error raised. */
  type FileSystem = map<string, Result<Bytes, string>>

  const NO_SOURCE := "Either key_path or " + "key_string must be provided"

  /** `s.encode('utf-8')` for one character. */
  function EncodeChar(c: char): (r: Bytes)
    ensures 1 <= |r| <= 4
    ensures (c as int < 0x80) <==> |r| == 1
  {
    var n := c as int;
    if n < 0x80 then [n as byte]
    else if n < 0x800 then [(0xC0 + n / 0x40) as byte, (0x80 + n % 0x40) as byte]
    else if n < 0x10000 then
      [(0xE0 + n / 0x1000) as byte, (0x80 + (n / 0x40) % 0x40) as byte, (0x80 + n % 0x40) as byte]
    else
      [(0xF0 + n / 0x40000) as byte, (0x80 + (n / 0x1000) % 0x40) as byte,
       (0x80 + (n / 0x40) % 0x40) as byte, (0x80 + n % 0x40) as byte]
  }

  /** `s.encode('utf-8')` */
  function Utf8(s: string): (r: Bytes)
    ensures |r| >= |s|
  {
    if s == "" then [] else EncodeChar(s[0]) + Utf8(s[1..])
  }

  /** An ASCII character encodes to the one byte holding its code. */
  lemma EncodeAscii(c: char)
    requires c as int < 0x80
    ensures |EncodeChar(c)| == 1 && EncodeChar(c)[0] as int == c as int
  {
  }

  /** An ASCII string, such as a PEM key, encodes to one byte per
      character, each the character's code. */
  lemma {:induction false} Utf8Ascii(s: string)
    requires forall i :: 0 <= i < |s| ==> s[i] as int < 0x80
    ensures |Utf8(s)| == |s|
    ensures forall i :: 0 <= i < |s| ==> Utf8(s)[i] as int == s[i] as int
  {
    if s != "" {
      assert forall i :: 0 <= i < |s[1..]| ==> s[1..][i] == s[i + 1];
      Utf8Ascii(s[1..]);
      var head := EncodeChar(s[0]);
      EncodeAscii(s[0]);
      assert Utf8(s) == head + Utf8(s[1..]);
      forall i | 0 <= i < |s|
        ensures Utf8(s)[i] as int == s[i] as int
      {
        if i > 0 {
          assert Utf8(s)[i] == Utf8(s[1..])[i - 1];
          assert s[1..][i - 1] == s[i];
        }
      }
    }
  }

  /** `load_private_key(key_path, key_string)`: a non-empty string is
      encoded; otherwise a non-empty path is read, a missing file or a read
      error becoming a `ValueError`; with neither, a `ValueError`. The error
      is the `ValueError` message. */
  function LoadPrivateKey(keyPath: Option<string>, keyString: Option<string>, fs: FileSystem): Result<Bytes, string> {
    if keyString.Some? && keyString.value != "" then Success(Utf8(keyString.value))
    else if keyPath.Some? && keyPath.value != "" then
      if keyPath.value !in fs then
        Failure("Failed to load private key: " + ("Private key file not found: " + keyPath.value))
      else if fs[keyPath.value].Failure? then
        Failure("Failed to load private key: " + fs[keyPath.value].error)
      else Success(fs[keyPath.value].value)
    else Failure(NO_SOURCE)
  }

  /** `load_public_key(key_path, key_string)`, a copy of the private-key
      loader with "public" in its messages. */
  function LoadPublicKey(keyPath: Option<string>, keyString: Option<string>, fs: FileSystem): Result<Bytes, string> {
    if keyString.Some? && keyString.value != "" then Success(Utf8(keyString.value))
    else if keyPath.Some? && keyPath.value != "" then
      if keyPath.value !in fs then
        Failure("Failed to load public key: " + ("Public key file not found: " + keyPath.value))
      else if fs[keyPath.value].Failure? then
        Failure("Failed to load public key: " + fs[keyPath.value].error)
      else Success(fs[keyPath.value].value)
    else Failure(NO_SOURCE)
  }

  /** Precedence: a non-empty key string is used, whatever the path and the
      files; an existing readable file is used only when there is no such
      string; with neither, loading fails. */
  lemma KeySourcePrecedence(keyPath: Option<string>, keyString: Option<string>, fs: FileSystem)
    ensures keyString.Some? && keyString.value != "" ==>
      LoadPrivateKey(keyPath, keyString, fs) == Success(Utf8(keyString.value))
    ensures LoadPrivateKey(keyPath, keyString, fs).Success? <==>
      ((keyString.Some? && keyString.value != "")
       || (keyPath.Some? && keyPath.value != "" && keyPath.value in fs && fs[keyPath.value].Success?))
    ensures (keyString.None? || keyString.value == "") && LoadPrivateKey(keyPath, keyString, fs).Success? ==>
      LoadPrivateKey(keyPath, keyString, fs).value == fs[keyPath.value].value
  {
  }

  /** The public-key loader mirrors the private-key loader case for case:
      the same inputs succeed with the same bytes. */
  lemma PublicMirrorsPrivate(keyPath: Option<string>, keyString: Option<string>, fs: FileSystem)
    ensures LoadPublicKey(keyPath, keyString, fs).Success? <==> LoadPrivateKey(keyPath, keyString, fs).Success?
    ensures LoadPublicKey(keyPath, keyString, fs).Success? ==>
      LoadPublicKey(keyPath, keyString, fs).value == LoadPrivateKey(keyPath, keyString, fs).value
  {
  }

  /** ... and fail at the same step: both report a missing source exactly
      when neither a string nor a path is given, and otherwise a failed
      file read naming their own kind of key. */
  lemma PublicMirrorsPrivateErrors(keyPath: Option<string>, keyString: Option<string>, fs: FileSystem)
    requires LoadPrivateKey(keyPath, keyString, fs).Failure?
    ensures LoadPublicKey(keyPath, keyString, fs).Failure?
    ensures LoadPrivateKey(keyPath, keyString, fs).error == NO_SOURCE <==> keyPath.None? || keyPath.value == ""
    ensures LoadPublicKey(keyPath, keyString, fs).error == NO_SOURCE <==> keyPath.None? || keyPath.value == ""
    ensures keyPath.Some? && keyPath.value != "" ==>
      StartsWith(LoadPrivateKey(keyPath, keyString, fs).error, "Failed to load private key: ")
      && StartsWith(LoadPublicKey(keyPath, keyString, fs).error, "Failed to load public key: ")
  {
    var pri := LoadPrivateKey(keyPath, keyString, fs).error;
    var pub := LoadPublicKey(keyPath, keyString, fs).error;
    assert NO_SOURCE[0] == 'E';
    if keyPath.Some? && keyPath.value != "" {
      var p := keyPath.value;
      if p !in fs {
        assert pri == "Failed to load private key: " + ("Private key file not found: " + p);
        assert pub == "Failed to load public key: " + ("Public key file not found: " + p);
      } else {
        assert pri == "Failed to load private key: " + fs[p].error;
        assert pub == "Failed to load public key: " + fs[p].error;
      }
      assert pri[0] == 'F' && pub[0] == 'F';
    }
  }
}
