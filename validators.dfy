/** The shared field validators: password strength, email format,
    permission membership and id trimming. Each returns the validated value
    or the exception it raises. */
module Validators {
  import opened Wrappers
  import opened PyStr
  import opened PyValue
  import opened Constants

  /** The exceptions a validator can raise. Only a `ValueError` becomes a
      validation error of the request; the others escape the validator. */
  datatype Exc = ValueError(msg: string) | TypeError | AttributeError

  // ---------------------------------------------------------------- password

  predicate IsUpper(c: char) { 'A' <= c <= 'Z' }
  predicate IsLower(c: char) { 'a' <= c <= 'z' }
  predicate IsDigit(c: char) { '0' <= c <= '9' }
  predicate IsSpecial(c: char) { c in "@$!%*?&#" }

  /** Some character of `s` satisfies `f` (Python's `any(f(c) for c in s)`). */
  predicate Has(s: string, f: char -> bool) {
    exists i :: 0 <= i < |s| && f(s[i])
  }

  const UPPER_MISSING := "one uppercase letter"
  const LOWER_MISSING := "one lowercase letter"
  const DIGIT_MISSING := "one number"
  const SPECIAL_MISSING := "one special character (@$!%*?&#)"

  /** The character classes in the order the error message names them. */
  const CLASS_NAMES: seq<string> := [UPPER_MISSING, LOWER_MISSING, DIGIT_MISSING, SPECIAL_MISSING]

  function ClassTest(k: nat): char -> bool
    requires k < 4
  {
    if k == 0 then IsUpper else if k == 1 then IsLower else if k == 2 then IsDigit else IsSpecial
  }

  /** The names of the character classes `p` lacks. */
  function MissingClasses(p: string): seq<string> {
    IfMissing(!Has(p, IsUpper), UPPER_MISSING)
    + IfMissing(!Has(p, IsLower), LOWER_MISSING)
    + IfMissing(!Has(p, IsDigit), DIGIT_MISSING)
    + IfMissing(!Has(p, IsSpecial), SPECIAL_MISSING)
  }

  /** One `errors.append(name)` guarded by `missing`. */
  function IfMissing(missing: bool, name: string): seq<string> {
    if missing then [name] else []
  }

  /** The outcome of `validate_password_strength(p)`. */
  function PasswordVerdict(p: string): Result<string, Exc> {
    if p == "" then Failure(ValueError("Password is required"))
    else if |p| < MIN_PASSWORD_LENGTH then
      Failure(ValueError("Password must be at least 6 characters long"))
    else if |p| > MAX_PASSWORD_LENGTH then
      Failure(ValueError("Password must be at most 128 characters long"))
    else if MissingClasses(p) != [] then
      Failure(ValueError("Password must contain at least " + Join(", ", MissingClasses(p))))
    else Success(p)
  }

  /** `any(f(c) for c in s)`, stopping at the first hit. */
  method AnyChar(s: string, f: char -> bool) returns (found: bool)
    ensures found <==> Has(s, f)
  {
    found := false;
    var i := 0;
    while i < |s| && !found
      invariant 0 <= i <= |s|
      invariant found <==> exists k :: 0 <= k < i && f(s[k])
    {
      found := f(s[i]);
      i := i + 1;
    }
  }

  /** Checks the length bounds, then collects the missing character classes
      one `append` at a time. */
  method ValidatePasswordStrength(password: string) returns (r: Result<string, Exc>)
    ensures r == PasswordVerdict(password)
  {
    if password == "" {
      return Failure(ValueError("Password is required"));
    }
    if |password| < MIN_PASSWORD_LENGTH {
      return Failure(ValueError("Password must be at least 6 characters long"));
    }
    if |password| > MAX_PASSWORD_LENGTH {
      return Failure(ValueError("Password must be at most 128 characters long"));
    }
    var hasUpper := AnyChar(password, IsUpper);
    var hasLower := AnyChar(password, IsLower);
    var hasDigit := AnyChar(password, IsDigit);
    var hasSpecial := AnyChar(password, IsSpecial);
    var errors: seq<string> := [];
    if !hasUpper {
      errors := errors + [UPPER_MISSING];
    }
    if !hasLower {
      errors := errors + [LOWER_MISSING];
    }
    if !hasDigit {
      errors := errors + [DIGIT_MISSING];
    }
    if !hasSpecial {
      errors := errors + [SPECIAL_MISSING];
    }
    assert errors == MissingClasses(password);
    if errors != [] {
      return Failure(ValueError("Password must contain at least " + Join(", ", errors)));
    }
    return Success(password);
  }

  /** A password is accepted exactly when its length is within the limits
      and it has an uppercase letter, a lowercase letter, a digit and a
      special character; nothing else about its characters is checked, and
      it is returned unchanged. */
  lemma PasswordAcceptedIff(p: string)
    ensures PasswordVerdict(p).Success? <==>
      (MIN_PASSWORD_LENGTH <= |p| <= MAX_PASSWORD_LENGTH
       && Has(p, IsUpper) && Has(p, IsLower) && Has(p, IsDigit) && Has(p, IsSpecial))
    ensures PasswordVerdict(p).Success? ==> PasswordVerdict(p).value == p
  {
  }

  /** Length is checked before any character class: a password of the wrong
      length is rejected for its length whatever it contains. */
  lemma PasswordLengthFirst(p: string)
    requires |p| < MIN_PASSWORD_LENGTH || |p| > MAX_PASSWORD_LENGTH
    ensures PasswordVerdict(p).Failure?
    ensures p != "" ==> PasswordVerdict(p).error.msg[..19] == "Password must be at"
  {
  }

  /** Position of a class name in the fixed order of the message. */
  function Rank(name: string): int {
    if name == UPPER_MISSING then 0
    else if name == LOWER_MISSING then 1
    else if name == DIGIT_MISSING then 2
    else if name == SPECIAL_MISSING then 3
    else 4
  }

  /** The four class names are told apart by their rank. */
  lemma RanksOfClassNames()
    ensures Rank(UPPER_MISSING) == 0 && Rank(LOWER_MISSING) == 1
    ensures Rank(DIGIT_MISSING) == 2 && Rank(SPECIAL_MISSING) == 3
  {
    assert UPPER_MISSING[4] == 'u' && LOWER_MISSING[4] == 'l';
    assert |DIGIT_MISSING| == 10 && |UPPER_MISSING| == |LOWER_MISSING| == 20;
    assert |SPECIAL_MISSING| == 32;
  }

  /** The class-failure message names exactly the missing classes, each once,
      in the fixed order uppercase, lowercase, number, special. */
  lemma MissingClassesListed(p: string)
    ensures forall k :: 0 <= k < 4 ==> (CLASS_NAMES[k] in MissingClasses(p) <==> !Has(p, ClassTest(k)))
    ensures Increasing(MissingClasses(p))
  {
    MissingClassesNamed(p);
    MissingClassesOrdered(p);
  }

  /** A class is named exactly when the password lacks it. */
  lemma MissingClassesNamed(p: string)
    ensures forall k :: 0 <= k < 4 ==> (CLASS_NAMES[k] in MissingClasses(p) <==> !Has(p, ClassTest(k)))
  {
    RanksOfClassNames();
    forall k | 0 <= k < 4
      ensures CLASS_NAMES[k] in MissingClasses(p) <==> !Has(p, ClassTest(k))
    {
      assert Rank(CLASS_NAMES[k]) == k;
    }
  }

  /** The names follow the fixed order. */
  lemma MissingClassesOrdered(p: string)
    ensures Increasing(MissingClasses(p))
  {
    PrefixOrdered(p, 4);
    var u := IfMissing(!Has(p, IsUpper), UPPER_MISSING);
    var l := IfMissing(!Has(p, IsLower), LOWER_MISSING);
    var d := IfMissing(!Has(p, IsDigit), DIGIT_MISSING);
    assert ClassTest(0) == IsUpper && ClassTest(1) == IsLower && ClassTest(2) == IsDigit && ClassTest(3) == IsSpecial;
    assert ClassesMissingBefore(p, 1) == [] + u == u;
    assert ClassesMissingBefore(p, 2) == u + l;
    assert ClassesMissingBefore(p, 3) == u + l + d;
    assert MissingClasses(p) == ClassesMissingBefore(p, 4);
  }

  /** The names `p` lacks among the first `n` classes. */
  function ClassesMissingBefore(p: string, n: nat): seq<string>
    requires n <= 4
  {
    if n == 0 then [] else ClassesMissingBefore(p, n - 1) + IfMissing(!Has(p, ClassTest(n - 1)), CLASS_NAMES[n - 1])
  }

  lemma {:induction false} PrefixOrdered(p: string, n: nat)
    requires n <= 4
    ensures Increasing(ClassesMissingBefore(p, n))
    ensures forall i :: 0 <= i < |ClassesMissingBefore(p, n)| ==> Rank(ClassesMissingBefore(p, n)[i]) < n
  {
    if n > 0 {
      PrefixOrdered(p, n - 1);
      RanksOfClassNames();
      AppendRanked(ClassesMissingBefore(p, n - 1), !Has(p, ClassTest(n - 1)), CLASS_NAMES[n - 1], n - 1);
    }
  }

  /** Ranks strictly increase along `xs`, and all are below 4. */
  predicate Increasing(xs: seq<string>) {
    forall i, j :: 0 <= i < j < |xs| ==> Rank(xs[i]) < Rank(xs[j]) < 4
  }

  /** One `append` of the password check, of a name ranked after every name
      already listed, keeps the ranks increasing. */
  lemma AppendRanked(xs: seq<string>, missing: bool, name: string, r: int)
    requires Increasing(xs) && Rank(name) == r < 4
    requires forall i :: 0 <= i < |xs| ==> Rank(xs[i]) < r
    ensures Increasing(xs + IfMissing(missing, name))
    ensures forall i :: 0 <= i < |xs + IfMissing(missing, name)| ==> Rank((xs + IfMissing(missing, name))[i]) <= r
  {
  }

  // ------------------------------------------------------------------- email

  predicate IsLetter(c: char) { IsUpper(c) || IsLower(c) }
  predicate IsAlnum(c: char) { IsLetter(c) || IsDigit(c) }
  /** `[a-zA-Z0-9._%+-]` */
  predicate IsLocalChar(c: char) { IsAlnum(c) || c in "._%+-" }
  /** `[a-zA-Z0-9.-]` */
  predicate IsDomainChar(c: char) { IsAlnum(c) || c == '.' || c == '-' }

  /** Every character of `s` satisfies `f`. */
  predicate All(s: string, f: char -> bool) {
    forall i :: 0 <= i < |s| ==> f(s[i])
  }

  /** `s` splits as `s[..at] + "@" + s[at+1..dot] + "." + s[dot+1..]` into a
      non-empty local part, a non-empty domain and a top-level label of at
      least two letters, as `^[a-zA-Z0-9._%+-]+@[a-zA-Z0-9.-]+\.[a-zA-Z]{2,}$`
      requires. */
  predicate EmailShape(s: string, at: int, dot: int) {
    && 0 < at && at + 1 < dot && dot + 2 < |s|
    && s[at] == '@' && s[dot] == '.'
    && All(s[..at], IsLocalChar)
    && All(s[at + 1..dot], IsDomainChar)
    && All(s[dot + 1..], IsLetter)
  }

  /** The regular expression `EMAIL_PATTERN` matches `s` (the match is
      anchored at both ends). */
  ghost predicate EmailPattern(s: string) {
    exists at, dot :: EmailShape(s, at, dot)
  }

  /** The executable test: the first `@` and the last `.` are the only
      places where the pattern can split `s`. */
  predicate MatchesEmail(s: string) {
    EmailShape(s, Find(s, '@'), RFind(s, '.'))
  }

  /** The executable test decides the pattern. */
  lemma MatchesEmailIff(s: string)
    ensures MatchesEmail(s) <==> EmailPattern(s)
  {
    if EmailPattern(s) {
      var at, dot :| EmailShape(s, at, dot);
      assert s[..at][0] != '@';
      forall k | 0 <= k < at ensures s[k] != '@' {
        assert s[..at][k] == s[k];
      }
      assert Find(s, '@') == at;
      forall k | dot < k < |s| ensures s[k] != '.' {
        assert s[dot + 1..][k - dot - 1] == s[k];
      }
      assert RFind(s, '.') == dot;
    }
  }

  /** The one `@` of a matching address. */
  lemma EmailShapeOneAt(s: string, at: int, dot: int)
    requires EmailShape(s, at, dot)
    ensures forall k :: 0 <= k < |s| && k != at ==> s[k] != '@'
  {
    forall k | 0 <= k < at ensures s[k] != '@' {
      assert s[..at][k] == s[k];
    }
    forall k | at < k < dot ensures s[k] != '@' {
      assert s[at + 1..dot][k - at - 1] == s[k];
    }
    forall k | dot < k < |s| ensures s[k] != '@' {
      assert s[dot + 1..][k - dot - 1] == s[k];
    }
  }

  /** The checks `validate_email_format` applies once the address is
      stripped and lower-cased. */
  function CheckAddress(e: string): (r: Result<string, Exc>)
    ensures r.Success? ==> r.value == e && MatchesEmail(e)
    ensures r.Success? ==> |e| <= MAX_EMAIL_LENGTH && Find(e, '@') <= MAX_EMAIL_LOCAL_PART_LENGTH
  {
    if e == "" then Failure(ValueError("Email cannot be empty or whitespace only"))
    else if !MatchesEmail(e) then Failure(ValueError("Invalid email format"))
    else if |e| > MAX_EMAIL_LENGTH then
      Failure(ValueError("Email address is too long (maximum 254 characters)"))
    else if |SplitOnce(e, '@')[0]| > MAX_EMAIL_LOCAL_PART_LENGTH then
      Failure(ValueError("Email local part is too long (maximum 64 characters)"))
    else
      MatchesEmailIff(e);
      SplitOnceHead(e, '@');
      Success(e)
  }

  /** An address passes the checks exactly when it matches the pattern and
      is within both length limits. */
  lemma CheckAddressIff(e: string)
    ensures CheckAddress(e).Success? <==>
      (EmailPattern(e) && |e| <= MAX_EMAIL_LENGTH && Find(e, '@') <= MAX_EMAIL_LOCAL_PART_LENGTH)
  {
    MatchesEmailIff(e);
    if e != "" && MatchesEmail(e) {
      SplitOnceHead(e, '@');
    }
  }

  /** The outcome of `validate_email_format(email)`: falsy and non-string
      input is rejected first, then the stripped, lower-cased address is
      checked. */
  function ValidateEmailFormat(email: Value): (r: Result<string, Exc>)
    ensures r.Success? ==> MatchesEmail(r.value)
  {
    if !Truthy(email) then Failure(ValueError("Email is required"))
    else if !email.VStr? then Failure(ValueError("Email must be a string"))
    else CheckAddress(Lower(Strip(email.s)))
  }

  /** An accepted address has exactly one `@`, at most 64 characters before
      it, and ends in a dot followed by at least two letters. */
  lemma EmailAcceptedShape(s: string, e: string)
    requires ValidateEmailFormat(VStr(s)) == Success(e)
    ensures |e| <= MAX_EMAIL_LENGTH
    ensures 0 < Find(e, '@') <= MAX_EMAIL_LOCAL_PART_LENGTH
    ensures forall k :: 0 <= k < |e| && e[k] == '@' ==> k == Find(e, '@')
    ensures RFind(e, '.') + 2 < |e| && All(e[RFind(e, '.') + 1..], IsLetter)
  {
    EmailOfString(s);
    assert CheckAddress(Lower(Strip(s))) == Success(e);
    CheckedAddressShape(e);
  }

  /** What the checks leave of an address's shape. */
  lemma CheckedAddressShape(e: string)
    requires CheckAddress(e).Success?
    ensures |e| <= MAX_EMAIL_LENGTH
    ensures 0 < Find(e, '@') <= MAX_EMAIL_LOCAL_PART_LENGTH
    ensures forall k :: 0 <= k < |e| && e[k] == '@' ==> k == Find(e, '@')
    ensures RFind(e, '.') + 2 < |e| && All(e[RFind(e, '.') + 1..], IsLetter)
  {
    assert MatchesEmail(e);
    EmailShapeOneAt(e, Find(e, '@'), RFind(e, '.'));
  }

  /** Only a string can be accepted. */
  lemma EmailNeedsString(email: Value)
    ensures ValidateEmailFormat(email).Success? ==> email.VStr?
  {
  }

  /** On a string, the validator is the address checks on its stripped,
      lower-cased form, except that the empty string is "required". */
  lemma EmailOfString(s: string)
    ensures s == "" ==> ValidateEmailFormat(VStr(s)) == Failure(ValueError("Email is required"))
    ensures s != "" ==> ValidateEmailFormat(VStr(s)) == CheckAddress(Lower(Strip(s)))
  {
    if s == "" {
      assert !Truthy(VStr(s));
    } else {
      assert Truthy(VStr(s));
    }
  }

  /** A string is accepted exactly when its stripped, lower-cased form
      matches the pattern and is within both length limits; the accepted
      value is that form. */
  lemma EmailAcceptedIff(s: string)
    ensures var e := Lower(Strip(s));
      ValidateEmailFormat(VStr(s)).Success? <==>
        (EmailPattern(e) && |e| <= MAX_EMAIL_LENGTH && Find(e, '@') <= MAX_EMAIL_LOCAL_PART_LENGTH)
    ensures ValidateEmailFormat(VStr(s)).Success? ==> ValidateEmailFormat(VStr(s)).value == Lower(Strip(s))
  {
    if s == "" {
      EmptyEmail(s);
    } else {
      NonEmptyEmail(s);
    }
  }

  /** The empty string is rejected, and does not match either. */
  lemma EmptyEmail(s: string)
    requires s == ""
    ensures var e := Lower(Strip(s));
      ValidateEmailFormat(VStr(s)).Success? <==>
        (EmailPattern(e) && |e| <= MAX_EMAIL_LENGTH && Find(e, '@') <= MAX_EMAIL_LOCAL_PART_LENGTH)
    ensures ValidateEmailFormat(VStr(s)).Failure?
  {
    EmailOfString(s);
    EmptyIsNoEmail();
  }

  /** A non-empty string is accepted as the address checks decide. */
  lemma NonEmptyEmail(s: string)
    requires s != ""
    ensures var e := Lower(Strip(s));
      ValidateEmailFormat(VStr(s)).Success? <==>
        (EmailPattern(e) && |e| <= MAX_EMAIL_LENGTH && Find(e, '@') <= MAX_EMAIL_LOCAL_PART_LENGTH)
    ensures ValidateEmailFormat(VStr(s)).Success? ==> ValidateEmailFormat(VStr(s)).value == Lower(Strip(s))
  {
    var e := Lower(Strip(s));
    assert ValidateEmailFormat(VStr(s)) == CheckAddress(e) by {
      assert Truthy(VStr(s));
    }
    CheckAddressIff(e);
  }

  /** The empty string, stripped and lower-cased, does not match. */
  lemma EmptyIsNoEmail()
    ensures !EmailPattern(Lower(Strip("")))
  {
    assert StripLeft("") == "" && StripRight("") == "";
    var e := Lower(Strip(""));
    assert |e| == 0;
    forall at: int, dot: int
      ensures !EmailShape(e, at, dot)
    {
    }
  }

  /** Characters the pattern admits are never whitespace. */
  lemma PatternCharsNotSpace(e: string, at: int, dot: int)
    requires EmailShape(e, at, dot)
    ensures NoSpace(e)
  {
    forall k | 0 <= k < |e| ensures !IsSpace(e[k]) {
      if k < at {
        assert e[..at][k] == e[k];
      } else if at < k < dot {
        assert e[at + 1..dot][k - at - 1] == e[k];
      } else if k > dot {
        assert e[dot + 1..][k - dot - 1] == e[k];
      }
    }
  }

  /** Validating an accepted address again returns it unchanged. */
  lemma EmailIdempotent(s: string)
    requires ValidateEmailFormat(VStr(s)).Success?
    ensures ValidateEmailFormat(VStr(ValidateEmailFormat(VStr(s)).value)) == ValidateEmailFormat(VStr(s))
  {
    EmailAcceptedIff(s);
    var e := Lower(Strip(s));
    var at, dot :| EmailShape(e, at, dot);
    PatternCharsNotSpace(e, at, dot);
    assert e != "" && !IsSpace(e[0]) && !IsSpace(e[|e| - 1]);
    StripFixed(e);
    LowerIdempotent(Strip(s));
    EmailOfString(e);
  }

  // ------------------------------------------------------------- permissions

  /** `a < b` on Python strings: at the first position where they differ `a`
      has the smaller character, or `a` is a proper prefix of `b`. */
  ghost predicate LexLess(a: string, b: string) {
    exists k :: 0 <= k <= |a| && k <= |b| && a[..k] == b[..k]
      && ((k < |a| && k < |b| && a[k] < b[k]) || k == |a| < |b|)
  }

  /** `sorted(Permissions.ALL_PERMISSIONS)`, as listed in the error message. */
  const SORTED_PERMISSIONS: seq<string> :=
    [ADMIN, DELETE_AUDIO, DELETE_USER, READ_AUDIO, READ_USER, WRITE_AUDIO, WRITE_USER]

  lemma LexLessAt(a: string, b: string, k: nat)
    requires k < |a| && k < |b| && a[..k] == b[..k] && a[k] < b[k]
    ensures LexLess(a, b)
  {
  }

  /** The listing in the error message holds the same permissions, in
      ascending order. */
  lemma SortedPermissionsSorted()
    ensures |SORTED_PERMISSIONS| == |ALL_PERMISSIONS|
    ensures forall p :: p in SORTED_PERMISSIONS <==> p in ALL_PERMISSIONS
    ensures forall i :: 0 < i < |SORTED_PERMISSIONS| ==> LexLess(SORTED_PERMISSIONS[i - 1], SORTED_PERMISSIONS[i])
  {
    LexLessAt(ADMIN, DELETE_AUDIO, 0);
    LexLessAt(DELETE_AUDIO, DELETE_USER, 7);
    LexLessAt(DELETE_USER, READ_AUDIO, 0);
    LexLessAt(READ_AUDIO, READ_USER, 5);
    LexLessAt(READ_USER, WRITE_AUDIO, 0);
    LexLessAt(WRITE_AUDIO, WRITE_USER, 6);
  }

  /** `[p for p in ps if p not in valid_permissions]` */
  function InvalidPermissions(ps: seq<string>): (r: seq<string>)
    ensures forall p :: p in r <==> p in ps && !IsPermission(p)
    ensures |r| <= |ps|
  {
    if ps == [] then []
    else (if IsPermission(ps[0]) then [] else [ps[0]]) + InvalidPermissions(ps[1..])
  }

  /** A list of known permissions has no invalid ones. */
  lemma {:induction false} NoneInvalid(ps: seq<string>)
    requires forall p :: p in ps ==> IsPermission(p)
    ensures InvalidPermissions(ps) == []
    decreases |ps|
  {
    if ps != [] {
      assert ps[0] in ps;
      assert forall p :: p in ps[1..] ==> p in ps;
      NoneInvalid(ps[1..]);
    }
  }

  /** The outcome of `validate_permissions(v)`. A list holding anything but
      strings fails with a `TypeError`: building the message joins the
      offending elements, and an unhashable element already fails the
      membership test. */
  function ValidatePermissions(v: Value): Result<Value, Exc> {
    if v.VNone? then Success(v)
    else if !v.VList? then Failure(ValueError("Permissions must be a list"))
    else if v.items == [] then Success(v)
    else if !IsStrList(v) then Failure(TypeError)
    else
      var invalid := InvalidPermissions(Strings(v.items));
      if invalid != [] then
        Failure(ValueError("Invalid permissions: " + Join(", ", invalid)
          + ". Valid permissions are: " + Join(", ", SORTED_PERMISSIONS)))
      else Success(v)
  }

  /** `None` and every list of known permissions pass through unchanged,
      order and duplicates included; anything else is rejected. */
  lemma PermissionsAcceptedIff(v: Value)
    ensures ValidatePermissions(v).Success? <==>
      (v.VNone? || (IsStrList(v) && forall k :: 0 <= k < |v.items| ==> IsPermission(v.items[k].s)))
    ensures ValidatePermissions(v).Success? ==> ValidatePermissions(v).value == v
  {
    if IsStrList(v) && v.items != [] {
      var ps := Strings(v.items);
      if forall k :: 0 <= k < |v.items| ==> IsPermission(v.items[k].s) {
        forall p | p in ps ensures IsPermission(p) {
          var j :| 0 <= j < |ps| && ps[j] == p;
          assert ps[j] == v.items[j].s;
        }
        NoneInvalid(ps);
      } else {
        var k :| 0 <= k < |v.items| && !IsPermission(v.items[k].s);
        assert ps[k] == v.items[k].s;
        assert ps[k] in InvalidPermissions(ps);
      }
    }
  }

  // --------------------------------------------------------------------- ids

  /** The shared body of `validate_user_id` and `validate_file_id`;
      `name`/`kind` name the entity ("User"/"user", "File"/"file"). */
  function ValidateId(v: Value, strict: bool, name: string, kind: string): Result<string, Exc> {
    if !Truthy(v) then Failure(ValueError(name + " ID is required"))
    else if !v.VStr? then Failure(ValueError(name + " ID must be a string"))
    else
      var id := Strip(v.s);
      if |id| < 1 then Failure(ValueError(name + " ID cannot be empty"))
      else if strict && !StartsWith(id, kind + "_") then
        Failure(ValueError("Invalid " + kind + " ID format. Must start with '" + kind + "_'"))
      else Success(id)
  }

  /** `validate_user_id(v, strict)` */
  function ValidateUserId(v: Value, strict: bool): Result<string, Exc> {
    ValidateId(v, strict, "User", "user")
  }

  /** `validate_file_id(v, strict)` */
  function ValidateFileId(v: Value, strict: bool): Result<string, Exc> {
    ValidateId(v, strict, "File", "file")
  }

  /** An id is accepted exactly when it is a string that is not blank and,
      under `strict`, starts with the entity prefix once stripped; the
      stripped id is returned. */
  lemma IdAcceptedIff(v: Value, strict: bool, name: string, kind: string)
    ensures ValidateId(v, strict, name, kind).Success? <==>
      (v.VStr? && !AllSpace(v.s) && (strict ==> StartsWith(Strip(v.s), kind + "_")))
    ensures ValidateId(v, strict, name, kind).Success? ==>
      ValidateId(v, strict, name, kind).value == Strip(v.s) != ""
  {
    if v.VStr? {
      StripEmpty(v.s);
      if v.s == "" {
        assert !Truthy(v) && AllSpace(v.s);
      } else {
        assert Truthy(v);
        assert |Strip(v.s)| < 1 <==> Strip(v.s) == "";
      }
    }
  }

  /** Validating an accepted id again returns it unchanged. */
  lemma IdIdempotent(v: Value, strict: bool, name: string, kind: string)
    requires ValidateId(v, strict, name, kind).Success?
    ensures ValidateId(VStr(ValidateId(v, strict, name, kind).value), strict, name, kind)
      == ValidateId(v, strict, name, kind)
  {
    IdAcceptedIff(v, strict, name, kind);
    StripIdempotent(v.s);
  }
}
