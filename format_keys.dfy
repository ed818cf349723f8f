/** The helper that turns a PEM key file into one line for an environment
    file: the text is read, stripped, each line break written as the two
    characters `\n`, and the whole wrapped in double quotes. The key files
    are given as a map from path to raw text. */
module FormatKeys {
  import opened Wrappers
  import opened PyStr

  const BACKSLASH: char := '\\'

  /** `read_text()` in universal-newlines mode: "\r\n" and a lone "\r" both
      read as "\n". */
  function UniversalNewlines(raw: string): (text: string)
    ensures '\r' !in text
    ensures |text| <= |raw|
    decreases |raw|
  {
    if raw == "" then ""
    else if raw[0] == '\r' then
      "\n" + UniversalNewlines(if |raw| > 1 && raw[1] == '\n' then raw[2..] else raw[1..])
    else [raw[0]] + UniversalNewlines(raw[1..])
  }

  /** Text without carriage returns reads back unchanged. */
  lemma {:induction false} UniversalNewlinesPlain(raw: string)
    requires '\r' !in raw
    ensures UniversalNewlines(raw) == raw
    decreases |raw|
  {
    if raw != "" {
      assert raw[0] in raw;
      assert forall k :: 0 <= k < |raw[1..]| ==> raw[1..][k] == raw[k + 1];
      UniversalNewlinesPlain(raw[1..]);
    }
  }

  /** `s.replace('\n', '\\n')`: every line break becomes a backslash and
      an `n`. */
  function EscapeNewlines(s: string): (r: string)
    ensures '\n' !in r
    ensures |r| == |s| + Count(s, '\n')
    decreases |s|
  {
    if s == "" then ""
    else (if s[0] == '\n' then [BACKSLASH, 'n'] else [s[0]]) + EscapeNewlines(s[1..])
  }

  /** Reading the escapes back: a backslash followed by `n` is a line
      break, every other character stands for itself. */
  function UnescapeNewlines(s: string): string
    decreases |s|
  {
    if s == "" then ""
    else if |s| >= 2 && s[0] == BACKSLASH && s[1] == 'n' then "\n" + UnescapeNewlines(s[2..])
    else [s[0]] + UnescapeNewlines(s[1..])
  }

  /** Without backslashes in the key, the escaping is undone exactly. */
  lemma {:induction false} UnescapeEscape(s: string)
    requires BACKSLASH !in s
    ensures UnescapeNewlines(EscapeNewlines(s)) == s
    decreases |s|
  {
    if s != "" {
      assert s[0] in s;
      assert BACKSLASH !in s[1..] by {
        assert forall k :: 0 <= k < |s[1..]| ==> s[1..][k] == s[k + 1];
      }
      UnescapeEscape(s[1..]);
      var rest := EscapeNewlines(s[1..]);
      if s[0] == '\n' {
        assert EscapeNewlines(s) == [BACKSLASH, 'n'] + rest;
        assert ([BACKSLASH, 'n'] + rest)[2..] == rest;
      } else {
        assert EscapeNewlines(s) == [s[0]] + rest;
        assert ([s[0]] + rest)[1..] == rest;
      }
    }
  }

  /** `format_key_for_env(key_path)`: a missing file raises
      `FileNotFoundError`. */
  function FormatKeyForEnv(files: map<string, string>, keyPath: string): Result<string, string> {
    if keyPath !in files then Failure("Key file not found: " + keyPath)
    else Success("\"" + EscapeNewlines(Strip(UniversalNewlines(files[keyPath]))) + "\"")
  }

  /** The formatted key is one line in double quotes: it holds no line
      break and no carriage return, it is two quotes and one character per
      line break longer than the stripped key, and its inside unescapes to
      the stripped key when that has no backslash. */
  lemma FormattedKeyFacts(files: map<string, string>, keyPath: string)
    ensures keyPath !in files <==> FormatKeyForEnv(files, keyPath).Failure?
    ensures keyPath in files ==>
      var key := Strip(UniversalNewlines(files[keyPath]));
      var r := FormatKeyForEnv(files, keyPath).value;
      && '\n' !in r && '\r' !in r
      && |r| == |key| + Count(key, '\n') + 2
      && r[0] == '"' && r[|r| - 1] == '"'
      && (BACKSLASH !in key ==> UnescapeNewlines(r[1..|r| - 1]) == key)
  {
    if keyPath in files {
      var text := UniversalNewlines(files[keyPath]);
      var key := Strip(text);
      var e := EscapeNewlines(key);
      var r := "\"" + e + "\"";
      assert r[1..|r| - 1] == e;
      assert '\r' !in key by {
        forall k | 0 <= k < |key|
          ensures key[k] != '\r'
        {
          assert key[k] == text[StripStart(text) + k];
        }
      }
      EscapeKeepsOther(key, '\r');
      if BACKSLASH !in key {
        UnescapeEscape(key);
      }
    }
  }

  /** Escaping adds no character other than backslashes and `n`s. */
  lemma {:induction false} EscapeKeepsOther(s: string, c: char)
    requires c != BACKSLASH && c != 'n' && c !in s
    ensures c !in EscapeNewlines(s)
    decreases |s|
  {
    if s != "" {
      assert s[0] in s;
      assert c !in s[1..] by {
        assert forall k :: 0 <= k < |s[1..]| ==> s[1..][k] == s[k + 1];
      }
      EscapeKeepsOther(s[1..], c);
    }
  }
}
