/** The upload checks applied to an audio file before it is stored: its
    extension, its content type, the agreement of the two, and its size. */
module AudioValidation {
  import opened Wrappers
  import opened PyStr

  const ALLOWED_AUDIO_MIME_TYPES: set<string> := {
    "audio/mpeg", "audio/wav", "audio/wave", "audio/x-wav", "audio/aac",
    "audio/mp4", "audio/x-m4a", "audio/ogg", "audio/oga", "audio/opus"
  }

  const ALLOWED_AUDIO_EXTENSIONS: set<string> := {
    ".mp3", ".wav", ".m4a", ".aac", ".ogg", ".oga", ".opus"
  }

  /** The content types each extension may be uploaded with. */
  const EXTENSION_TO_MIME: map<string, seq<string>> := map[
    ".mp3" := ["audio/mpeg"],
    ".wav" := ["audio/wav", "audio/wave", "audio/x-wav"],
    ".m4a" := ["audio/mp4", "audio/x-m4a", "audio/aac"],
    ".aac" := ["audio/aac", "audio/mp4"],
    ".ogg" := ["audio/ogg", "audio/oga"],
    ".oga" := ["audio/ogg", "audio/oga"],
    ".opus" := ["audio/opus"]
  ]

  const MSG_NO_FILENAME := "File must have a filename"
  const MSG_NO_EXTENSION := "File must have a valid extension"
  const MSG_BAD_EXTENSION := "Invalid file extension. Supported formats: MP3, WAV, AAC/M4A, OGG, OPUS"
  const MSG_NO_CONTENT_TYPE := "File must have a content type"
  const MSG_BAD_CONTENT_TYPE := "Invalid audio format. Supported formats: MP3, WAV, AAC/M4A, OGG, OPUS"

  const MIB: nat := 1024 * 1024

  /** Every allowed extension has a table entry listing at least one content
      type, and every content type in the table is itself allowed. */
  lemma TableConsistent()
    ensures forall e :: e in ALLOWED_AUDIO_EXTENSIONS ==> e in EXTENSION_TO_MIME && |EXTENSION_TO_MIME[e]| > 0
    ensures forall e, k :: e in EXTENSION_TO_MIME && 0 <= k < |EXTENSION_TO_MIME[e]| ==>
      EXTENSION_TO_MIME[e][k] in ALLOWED_AUDIO_MIME_TYPES
    ensures EXTENSION_TO_MIME.Keys == ALLOWED_AUDIO_EXTENSIONS
  {
  }

  /** `extract_file_extension`: "" for an empty or dot-free name, otherwise a
      dot and the lower-cased text after the last dot. */
  function ExtractFileExtension(filename: string): string {
    if filename == "" || '.' !in filename then ""
    else "." + Lower(filename[RFind(filename, '.') + 1..])
  }

  /** The extension is determined by the last dot: whenever the name is
      some text, a dot, and a dot-free remainder, the extension is a dot and
      that remainder lower-cased. */
  lemma ExtensionAfterLastDot(p: string, q: string)
    requires '.' !in q
    ensures ExtractFileExtension(p + "." + q) == "." + Lower(q)
  {
    var s := p + "." + q;
    assert s[|p|] == '.';
    forall k | |p| < k < |s|
      ensures s[k] != '.'
    {
      assert s[k] == q[k - |p| - 1];
    }
    var i := RFind(s, '.');
    assert i == |p|;
    assert s[i + 1..] == q;
  }

  /** A name without a dot has no extension, and a name with one always
      has a non-empty extension starting with a dot (so "a." gives "."). */
  lemma ExtensionEmptyIff(filename: string)
    ensures ExtractFileExtension(filename) == "" <==> '.' !in filename
    ensures ExtractFileExtension(filename) != "" ==>
      ExtractFileExtension(filename)[0] == '.' && '.' !in ExtractFileExtension(filename)[1..]
  {
    var r := ExtractFileExtension(filename);
    if r != "" {
      var i := RFind(filename, '.');
      var tail := filename[i + 1..];
      forall k | 0 <= k < |tail|
        ensures r[1..][k] != '.'
      {
        assert tail[k] == filename[i + 1 + k];
      }
    }
  }

  /** `max_size_bytes / (1024 * 1024)` printed with no decimals: rounded to
      the nearest whole number of megabytes, ties to even. */
  function MegabytesText(maxSize: int): string {
    var q := maxSize / MIB;
    var r := maxSize % MIB;
    var n := if 2 * r > MIB || (2 * r == MIB && q % 2 == 1) then q + 1 else q;
    IntToString(n)
  }

  function SizeMessage(maxSize: int): string {
    "File size exceeds maximum allowed size of " + MegabytesText(maxSize) + "MB"
  }

  function MismatchMessage(expected: seq<string>): string {
    "File extension does not match MIME type. Expected one of: " + Join(", ", expected)
  }

  /** `validate_audio_file`, with the upload's `filename`, `content_type`
      and `size` given directly; `None` stands for a missing value. The
      result is the pair (is valid, error message). */
  function ValidateAudioFile(filename: Option<string>, contentType: Option<string>,
                             size: Option<int>, maxSize: int): (r: (bool, Option<string>))
    ensures r.0 <==> r.1.None?
  {
    if filename.None? || filename.value == "" then (false, Some(MSG_NO_FILENAME))
    else
      var ext := ExtractFileExtension(filename.value);
      if ext == "" then (false, Some(MSG_NO_EXTENSION))
      else if ext !in ALLOWED_AUDIO_EXTENSIONS then (false, Some(MSG_BAD_EXTENSION))
      else if contentType.None? || contentType.value == "" then (false, Some(MSG_NO_CONTENT_TYPE))
      else if contentType.value !in ALLOWED_AUDIO_MIME_TYPES then (false, Some(MSG_BAD_CONTENT_TYPE))
      else
        var expected := if ext in EXTENSION_TO_MIME then EXTENSION_TO_MIME[ext] else [];
        if |expected| > 0 && contentType.value !in expected then (false, Some(MismatchMessage(expected)))
        else if size.Some? && size.value > maxSize then (false, Some(SizeMessage(maxSize)))
        else (true, None)
  }

  /** The upload is accepted exactly when all five checks hold. */
  lemma AudioAcceptedIff(filename: Option<string>, contentType: Option<string>, size: Option<int>, maxSize: int)
    ensures ValidateAudioFile(filename, contentType, size, maxSize).0 <==>
      (filename.Some? && filename.value != ""
       && ExtractFileExtension(filename.value) in ALLOWED_AUDIO_EXTENSIONS
       && contentType.Some? && contentType.value != ""
       && contentType.value in ALLOWED_AUDIO_MIME_TYPES
       && contentType.value in EXTENSION_TO_MIME[ExtractFileExtension(filename.value)]
       && (size.None? || size.value <= maxSize))
  {
    TableConsistent();
  }

  /** The checks run in a fixed order and the first failing one decides the
      message, whatever the later inputs are. */
  lemma AudioCheckOrder(filename: Option<string>, contentType: Option<string>, size: Option<int>, maxSize: int)
    ensures (filename.None? || filename.value == "") ==>
      ValidateAudioFile(filename, contentType, size, maxSize) == (false, Some(MSG_NO_FILENAME))
    ensures (filename.Some? && filename.value != "" && '.' !in filename.value) ==>
      ValidateAudioFile(filename, contentType, size, maxSize) == (false, Some(MSG_NO_EXTENSION))
    ensures (filename.Some? && '.' in filename.value
             && ExtractFileExtension(filename.value) !in ALLOWED_AUDIO_EXTENSIONS) ==>
      ValidateAudioFile(filename, contentType, size, maxSize) == (false, Some(MSG_BAD_EXTENSION))
    ensures (filename.Some? && ExtractFileExtension(filename.value) in ALLOWED_AUDIO_EXTENSIONS
             && (contentType.None? || contentType.value == "")) ==>
      ValidateAudioFile(filename, contentType, size, maxSize) == (false, Some(MSG_NO_CONTENT_TYPE))
    ensures (filename.Some? && ExtractFileExtension(filename.value) in ALLOWED_AUDIO_EXTENSIONS
             && contentType.Some? && contentType.value != ""
             && contentType.value !in ALLOWED_AUDIO_MIME_TYPES) ==>
      ValidateAudioFile(filename, contentType, size, maxSize) == (false, Some(MSG_BAD_CONTENT_TYPE))
    ensures (filename.Some? && ExtractFileExtension(filename.value) in ALLOWED_AUDIO_EXTENSIONS
             && contentType.Some? && contentType.value in ALLOWED_AUDIO_MIME_TYPES
             && contentType.value !in EXTENSION_TO_MIME[ExtractFileExtension(filename.value)]) ==>
      ValidateAudioFile(filename, contentType, size, maxSize)
        == (false, Some(MismatchMessage(EXTENSION_TO_MIME[ExtractFileExtension(filename.value)])))
  {
    TableConsistent();
    if filename.Some? {
      ExtensionEmptyIff(filename.value);
    }
  }

  /** A file exactly at the size limit is accepted; one byte more is not. */
  lemma SizeAtLimitAccepted(filename: string, contentType: string, maxSize: int)
    requires ValidateAudioFile(Some(filename), Some(contentType), None, maxSize).0
    ensures ValidateAudioFile(Some(filename), Some(contentType), Some(maxSize), maxSize) == (true, None)
    ensures ValidateAudioFile(Some(filename), Some(contentType), Some(maxSize + 1), maxSize)
      == (false, Some(SizeMessage(maxSize)))
  {
  }

  /** A name ending in a dot and any casing `e` of a dot-free extension
      `x` has the extension "." + `x`. */
  lemma ExtensionOfAnyCase(stem: string, e: string, x: string)
    requires Lower(e) == x && '.' !in x
    ensures ExtractFileExtension(stem + "." + e) == "." + x
  {
    assert '.' !in e by {
      forall k | 0 <= k < |e| ensures e[k] != '.' {
        assert LowerChar(e[k]) == x[k];
      }
    }
    ExtensionAfterLastDot(stem, e);
  }

  /** Any name ending in ".mp3", in any case, sent as `audio/mpeg` within
      the size limit is accepted. */
  lemma Mp3Accepted(stem: string, e: string, size: Option<int>, maxSize: int)
    requires Lower(e) == "mp3"
    requires size.None? || size.value <= maxSize
    ensures ValidateAudioFile(Some(stem + "." + e), Some("audio/mpeg"), size, maxSize) == (true, None)
  {
    ExtensionOfAnyCase(stem, e, "mp3");
    assert "." + "mp3" == ".mp3";
    AudioAcceptedIff(Some(stem + "." + e), Some("audio/mpeg"), size, maxSize);
    assert ".mp3" in ALLOWED_AUDIO_EXTENSIONS && "audio/mpeg" in ALLOWED_AUDIO_MIME_TYPES;
    assert EXTENSION_TO_MIME[".mp3"] == ["audio/mpeg"];
  }

  /** Any name ending in ".wav", in any case, sent with the MP3 content type
      is refused, naming the WAV content types, whatever its size. */
  lemma WavAsMp3Refused(stem: string, e: string, size: Option<int>, maxSize: int)
    requires Lower(e) == "wav"
    ensures ValidateAudioFile(Some(stem + "." + e), Some("audio/mpeg"), size, maxSize)
      == (false, Some(MismatchMessage(["audio/wav", "audio/wave", "audio/x-wav"])))
  {
    ExtensionOfAnyCase(stem, e, "wav");
    assert "." + "wav" == ".wav";
    AudioCheckOrder(Some(stem + "." + e), Some("audio/mpeg"), size, maxSize);
    assert ".wav" in ALLOWED_AUDIO_EXTENSIONS && "audio/mpeg" in ALLOWED_AUDIO_MIME_TYPES;
    assert EXTENSION_TO_MIME[".wav"] == ["audio/wav", "audio/wave", "audio/x-wav"];
    assert "audio/mpeg" !in EXTENSION_TO_MIME[".wav"];
  }
}
