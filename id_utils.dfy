/** Prefixed identifiers. The random part, `uuid4().hex`, is an input. */
module IdUtils {
  import opened Wrappers
  import opened PyStr
  import opened PyValue
  import opened Validators

  /** The 32 lower-case hexadecimal digits of a random UUID. */
  predicate IsUuidHex(hex: string) {
    |hex| == 32 && forall i :: 0 <= i < |hex| ==> ('0' <= hex[i] <= '9' || 'a' <= hex[i] <= 'f')
  }

  /** `generate_id(prefix)` */
  function GenerateId(prefix: string, hex: string): string {
    prefix + "_" + hex
  }

  /** `generate_user_id()` */
  function GenerateUserId(hex: string): string {
    GenerateId("user", hex)
  }

  /** `generate_file_id()` */
  function GenerateFileId(hex: string): string {
    GenerateId("file", hex)
  }

  /** A generated id is its prefix, '_', and the hex digits, so the prefix
      and the random part can be read back from it. */
  lemma GeneratedIdParts(prefix: string, hex: string)
    ensures StartsWith(GenerateId(prefix, hex), prefix + "_")
    ensures GenerateId(prefix, hex)[|prefix| + 1..] == hex
    ensures |GenerateId(prefix, hex)| == |prefix| + 1 + |hex|
  {
    assert GenerateId(prefix, hex)[..|prefix + "_"|] == prefix + "_";
  }

  /** Two generated ids with the same prefix are equal only when their hex
      parts are. */
  lemma GeneratedIdInjective(prefix: string, hex1: string, hex2: string)
    requires GenerateId(prefix, hex1) == GenerateId(prefix, hex2)
    ensures hex1 == hex2
  {
    GeneratedIdParts(prefix, hex1);
    GeneratedIdParts(prefix, hex2);
  }

  /** Generated ids pass the strict id validators unchanged. */
  lemma GeneratedIdsValid(hex: string)
    requires IsUuidHex(hex)
    ensures ValidateUserId(VStr(GenerateUserId(hex)), true) == Success(GenerateUserId(hex))
    ensures ValidateFileId(VStr(GenerateFileId(hex)), true) == Success(GenerateFileId(hex))
  {
    var u := GenerateUserId(hex);
    var f := GenerateFileId(hex);
    assert !IsSpace(u[0]) && !IsSpace(u[|u| - 1]) by { assert u[|u| - 1] == hex[31]; }
    assert !IsSpace(f[0]) && !IsSpace(f[|f| - 1]) by { assert f[|f| - 1] == hex[31]; }
    StripFixed(u);
    StripFixed(f);
    GeneratedIdParts("user", hex);
    GeneratedIdParts("file", hex);
  }
}
