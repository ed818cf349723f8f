# FullStackBaseApp backend: authentication, permissions and validation in Dafny

This project models the core of the FastAPI backend of FullStackBaseApp, an
audio-file service with user management. The model covers the following.

- **The stateless bearer-token gate.** The token is taken from the
  `Authorization` header, per section 2.1 of RFC 6750: `Bearer <t>` with the
  scheme in any case, or a bare `<t>`. It is decoded without a store lookup
  into an ephemeral user. A failure is a 401 with the `WWW-Authenticate:
  Bearer` challenge of section 3 of RFC 6750.
- **The permission checks.** There is an "all of" check and an "any of"
  check, and `admin` passes both. A refusal is a 403.
- **Access tokens.** Tokens carry the registered claims `iss`, `aud`, `iat`
  and `exp` of section 4.1 of RFC 7519. The audience configuration is a
  comma-separated list. When a token is read back, the issuer must match
  exactly and the audiences must intersect the configured ones; `aud` may be
  a string or an array (section 4.1.3 of RFC 7519). Signing keys are loaded
  lazily and cached.
- **The request models and validators.** These cover password strength,
  email format and length (with the limits of section 4.5.3.1 of RFC 5321),
  permission names, ids, pagination, and the user, audio and login bodies.
- **Upload and storage string logic.** This covers the audio file check by
  extension and MIME type, the S3 object key and `s3://` URL together with
  their parser, and prefixed ids.
- **The user, auth and audio services** over map-backed stores. A user
  always holds `read:audio`. Emails are unique, and a duplicate gives a 409.
  An unknown user and a wrong password get the same 401. A rename must keep
  the file extension. A delete goes through even when the storage deletion
  fails.
- **Serialisers and small helpers.** These are the `to_dict`/`from_dict`
  serialisers, the key-source precedence of the RSA key loaders, the PEM
  escaping of the key-formatting script, and the endpoint-to-permission
  tables of the two routers together with their admission order.

## Modules

There is one module per source file.

- **Support modules:**
  - `Wrappers` is `Option`/`Result`.
  - `PyStr` models Python `str` operations: `strip`, `split`, `join`,
    `find`, `replace`, `lower`.
  - `PyValue` holds dynamic JSON and Python values.
  - `Http` holds HTTP errors.
  - `Schema` models Pydantic field validation and error collection.
- **Modules that follow the source files:**
  - `Constants`, `Validators`, `UserSchemas`, `AudioSchemas`, `AuthSchemas`;
  - `AudioValidation`, `S3UrlParser`, `StorageService`, `IdUtils`;
  - `UserModel`, `AudioModel`, `RsaKeys`, `Jwt`, `Dependencies`;
  - `UserService`, `AuthService`, `AudioService`;
  - `FormatKeys`, `UserRoutes`, `AudioRoutes`.

State that the source changes in place is modelled with classes:
- the JWT key cache is `Jwt.JwtKeys`;
- the user store is `UserService.UserStore`;
- the file store is `AudioService.FileStore`.

The `setattr` loop of `update_user` and the character loop of the password
check are methods with loop invariants.

The following are parameters of the model:
- the clock (microseconds since the epoch);
- `uuid4().hex`;
- password hashing and verification;
- RS256 signing and verification, including the expiry check;
- the S3 client calls;
- the key files (a map from path to contents).

## Model

| member | source | states |
|---|---|---|
| Constants.AllPermissionsDistinct | backend_fastapi/app/core/constants.py:34-42 | there are seven permission names, pairwise distinct, "admin" among them |
| Constants.DefaultPermissionsValid | backend_fastapi/app/core/constants.py:46-49 | the default permissions are read:audio and write:audio, both valid permissions |
| Constants.AdminRoleIsAll | backend_fastapi/app/core/constants.py:52-69 | the admin role holds every permission |
| Constants.RolesNest | backend_fastapi/app/core/constants.py:52-69 | the roles are viewer, user and admin, and each role's permissions are included in the next role's |
| Constants.LimitsOrdered | backend_fastapi/app/core/constants.py:8-13 | the minimum password length is at most the maximum, and the local-part limit at most the whole-address limit |
| IdUtils.GeneratedIdParts | backend_fastapi/app/utils/id_utils.py:15-17 | a generated id is its prefix, an underscore and the uuid hex |
| IdUtils.GeneratedIdInjective | backend_fastapi/app/utils/id_utils.py:15-17 | under one prefix, different uuid hexes give different ids |
| IdUtils.GeneratedIdsValid | backend_fastapi/app/utils/id_utils.py:5-12 | user and file ids generated from a uuid hex pass the id validators unchanged |
| S3UrlParser.RemoveSchemePrefix | backend_fastapi/app/utils/s3_url_parser.py:30 | removing "s3://" from a URL leaves exactly the part after the scheme when that part holds no "s3://" |
| S3UrlParser.BareKey | backend_fastapi/app/utils/s3_url_parser.py:33-36 | a string that does not start with "s3://" is returned whole as the key with the default bucket |
| S3UrlParser.ParseComposedUrl | backend_fastapi/app/utils/s3_url_parser.py:28-32 | "s3://bucket/key" parses back to the bucket and key it was composed of |
| S3UrlParser.BucketOnly | backend_fastapi/app/utils/s3_url_parser.py:28-32 | a URL without a slash after the bucket gives that bucket and the empty key |
| S3UrlParser.ParseColonFreeUrl | backend_fastapi/app/utils/s3_url_parser.py:28-32 | for a bucket and key without "s3://" inside, the split at the first slash gives them back |
| S3UrlParser.DocExampleUrl | backend_fastapi/app/utils/s3_url_parser.py:23-24 | the documented URL example parses to its documented bucket and key |
| S3UrlParser.DocExampleKey | backend_fastapi/app/utils/s3_url_parser.py:25-26 | the documented bare-key example gives the default bucket and the key unchanged |
| S3UrlParser.InnerSchemeRemoved | backend_fastapi/app/utils/s3_url_parser.py:30 | an "s3://" inside the key is removed too, so such a key does not round-trip |
| Validators.AnyChar | backend_fastapi/app/utils/validators.py:55-58 | the loop finds a character of the class exactly when the password has one |
| Validators.ValidatePasswordStrength | backend_fastapi/app/utils/validators.py:20-74 | the method's verdict and messages are those of the reference verdict function |
| Validators.PasswordAcceptedIff | backend_fastapi/app/utils/validators.py:41-74 | a password is accepted exactly when it is at least 6 characters and has an upper, a lower, a digit and a special character |
| Validators.PasswordLengthFirst | backend_fastapi/app/utils/validators.py:44-52 | a password of the wrong length is refused with the length message, before any class check |
| Validators.MissingClassesListed | backend_fastapi/app/utils/validators.py:55-72 | the refusal lists exactly the missing classes, in the fixed order |
| Validators.MatchesEmailIff | backend_fastapi/app/utils/validators.py:15-17 | the executable matcher agrees with the email pattern |
| Validators.EmailShapeOneAt | backend_fastapi/app/utils/validators.py:15-17 | an address matching the pattern holds no "@" but the one that splits it |
| Validators.CheckAddress | backend_fastapi/app/utils/validators.py:101-119 | an accepted address is the one checked, matches the pattern, and respects both length limits |
| Validators.CheckAddressIff | backend_fastapi/app/utils/validators.py:104-119 | an address passes exactly when it matches the pattern and is at most 254 characters with a local part of at most 64 |
| Validators.ValidateEmailFormat | backend_fastapi/app/utils/validators.py:77-119 | an accepted email matches the email pattern |
| Validators.EmailAcceptedShape | backend_fastapi/app/utils/validators.py:99-119 | an accepted email has at most 254 characters, a local part of 1 to 64, a single "@", and a final label of at least two letters |
| Validators.EmailNeedsString | backend_fastapi/app/utils/validators.py:93-97 | only a string can be accepted |
| Validators.EmailAcceptedIff | backend_fastapi/app/utils/validators.py:93-119 | a string is accepted exactly when its stripped lower-case form matches the pattern within both length limits, and that form is the result |
| Validators.EmailIdempotent | backend_fastapi/app/utils/validators.py:99-119 | validating an accepted email again gives it back unchanged |
| Validators.SortedPermissionsSorted | backend_fastapi/app/utils/validators.py:148 | the list named in the error message holds every permission once, in ascending order |
| Validators.InvalidPermissions | backend_fastapi/app/utils/validators.py:145 | the invalid entries are exactly the given names that are not permissions |
| Validators.PermissionsAcceptedIff | backend_fastapi/app/utils/validators.py:135-154 | a value passes exactly when it is None or a list of strings that are all valid permissions, and it passes unchanged |
| Validators.IdAcceptedIff | backend_fastapi/app/utils/validators.py:157-220 | an id is accepted exactly when it is a non-blank string that, in strict mode, starts with its kind's prefix; the stripped id is kept |
| Validators.IdIdempotent | backend_fastapi/app/utils/validators.py:157-220 | validating an accepted id again gives it back unchanged |
| Schema.EmailStr | backend_fastapi/app/schemas/user/schemas.py:16-23 | an address passes exactly when its field validator accepted it and `EmailStr` does not refuse it, and it passes unchanged; a refusal is a validation error with pydantic's message |
| UserSchemas.CreateNameIff | backend_fastapi/app/schemas/user/schemas.py:41-65 | a name is accepted exactly when it is a non-blank string of at most 100 characters once stripped, and the stripped name is kept |
| UserSchemas.CreatePasswordIff | backend_fastapi/app/schemas/user/schemas.py:67-88 | a password is stripped before the strength check, and is accepted exactly when the stripped one is strong |
| UserSchemas.UserCreateValid | backend_fastapi/app/schemas/user/schemas.py:14-101 | a valid creation request has stripped names, the email the format validator returns and the `EmailStr` check accepts, a strong password equal to its confirmation, and valid permissions |
| UserSchemas.ConfirmComparedStripped | backend_fastapi/app/schemas/user/schemas.py:78-101 | a confirmation differing from the password only by surrounding whitespace matches it |
| UserSchemas.UserCreateCollectsErrors | backend_fastapi/app/schemas/user/schemas.py:41-65 | errors of both name fields are reported together in one 422 |
| UserSchemas.UserCreateReportsEmailStr | backend_fastapi/app/schemas/user/schemas.py:16-23 | an address the format validator accepts but `EmailStr` refuses makes the request a 422 carrying the `EmailStr` message against `email` |
| UserSchemas.UpdateEmail | backend_fastapi/app/schemas/user/schemas.py:107-169 | a given update email matches the email pattern, is not empty, and passes the `Optional[EmailStr]` check |
| UserSchemas.EmptyUpdate | backend_fastapi/app/schemas/user/schemas.py:103-112 | an empty body is a valid update with no field set |
| UserSchemas.UpdateNoneFields | backend_fastapi/app/schemas/user/schemas.py:115-177 | null validates to None in the name, email, password and permissions fields, and a non-string password or email becomes None |
| UserSchemas.UpdateGivenValues | backend_fastapi/app/schemas/user/schemas.py:147-169 | a given update password is stripped and strong; a given email is what the email validator returns and `EmailStr` accepts, and one `EmailStr` refuses is an error with its message |
| UserSchemas.UserListQueryDefaults | backend_fastapi/app/schemas/user/schemas.py:188-191 | skip defaults to 0 and limit to 20; a limit of 101 or a negative skip is a 422 |
| UserSchemas.UserIdPathIff | backend_fastapi/app/schemas/user/schemas.py:194-210 | a user id path is accepted exactly when it is not blank, and is kept stripped |
| AudioSchemas.MakeAudioFileResponse | backend_fastapi/app/schemas/audio/schemas.py:8-15 | metadata defaults to the empty dictionary, and the id, name, URL, type and creation time are kept |
| AudioSchemas.FileIdPathIff | backend_fastapi/app/schemas/audio/schemas.py:29-45 | a file id path is accepted exactly when it is not blank, and is kept stripped |
| AudioSchemas.AudioListQueryDefaults | backend_fastapi/app/schemas/audio/schemas.py:48-51 | skip defaults to 0 and limit to 100, and a limit of 0 is a 422 |
| AudioSchemas.AudioFileUpdateIff | backend_fastapi/app/schemas/audio/schemas.py:54-68 | an update body is valid exactly when its file_name is absent, null, or a non-blank name of at most 255 characters once stripped |
| AudioSchemas.UpdateFileNameIff | backend_fastapi/app/schemas/audio/schemas.py:58-68 | the file_name validator accepts exactly the non-blank names of at most 255 characters and keeps them stripped |
| AudioValidation.TableConsistent | backend_fastapi/app/utils/audio_validation.py:89-99 | every extension in the table is allowed and every MIME type it maps to is allowed |
| AudioValidation.ExtensionAfterLastDot | backend_fastapi/app/utils/audio_validation.py:27-43 | the extension is the lower-cased text from the last dot, and holds no other dot |
| AudioValidation.ExtensionEmptyIff | backend_fastapi/app/utils/audio_validation.py:36-43 | the extension is empty exactly when the name has no dot |
| AudioValidation.ValidateAudioFile | backend_fastapi/app/utils/audio_validation.py:46-111 | an accepted file carries no message, and a refused one has a message |
| AudioValidation.AudioAcceptedIff | backend_fastapi/app/utils/audio_validation.py:46-111 | a file is accepted exactly when it has a name, an allowed content type, an allowed extension matching that type, and a size within the limit if one is given |
| AudioValidation.AudioCheckOrder | backend_fastapi/app/utils/audio_validation.py:67-101 | the checks run in the source's order and the first failure decides the message |
| AudioValidation.SizeAtLimitAccepted | backend_fastapi/app/utils/audio_validation.py:106-109 | a size equal to the limit is accepted and one byte more is refused |
| AudioValidation.ExtensionOfAnyCase | backend_fastapi/app/utils/audio_validation.py:39-43 | a name ending in a dot and any casing of a dot-free extension has that extension, lower-cased |
| AudioValidation.Mp3Accepted | backend_fastapi/app/utils/audio_validation.py:39-43 | any name ending in ".mp3", in any case, sent as audio/mpeg within the size limit is accepted |
| AudioValidation.WavAsMp3Refused | backend_fastapi/app/utils/audio_validation.py:89-101 | any name ending in ".wav", in any case, declared as audio/mpeg is refused with the mismatch message naming the WAV types, whatever its size |
| UserModel.ToDict | backend_fastapi/app/schemas/user/models.py:18-29 | the document has exactly the model's keys |
| UserModel.DocumentId | backend_fastapi/app/schemas/user/models.py:35-37 | an id is found exactly when "_id" or "id" is truthy |
| UserModel.UserRoundTrip | backend_fastapi/app/schemas/user/models.py:18-48 | from_dict(to_dict(u)) == u for every valid user |
| UserModel.IdFromUnderscoreId | backend_fastapi/app/schemas/user/models.py:35-37 | a Mongo document's "_id" becomes the user id |
| UserModel.NoIdWhenFalsy | backend_fastapi/app/schemas/user/models.py:35-37 | without a truthy "_id" or "id" the user has no id |
| UserModel.FromDictDefaults | backend_fastapi/app/schemas/user/models.py:45-47 | missing permissions and timestamps take their defaults |
| UserModel.MissingKeyFails | backend_fastapi/app/schemas/user/models.py:41-44 | the first missing required key, in the source's order, fails with a KeyError naming it |
| UserModel.FromDictValid | backend_fastapi/app/schemas/user/models.py:10-11 | a user read back satisfies the model's field constraints |
| AudioModel.ToDict | backend_fastapi/app/schemas/audio/models.py:17-27 | the document has exactly the model's keys |
| AudioModel.AudioFileRoundTrip | backend_fastapi/app/schemas/audio/models.py:17-47 | from_dict(to_dict(f)) == f |
| AudioModel.IdFromUnderscoreId | backend_fastapi/app/schemas/audio/models.py:33-35 | a Mongo document's "_id" becomes the file id |
| AudioModel.ExtraKeysIgnored | backend_fastapi/app/schemas/audio/models.py:37-47 | keys the model does not know do not change the result |
| AudioModel.MetadataDefault | backend_fastapi/app/schemas/audio/models.py:44 | missing metadata is the empty dictionary |
| AudioModel.MissingKeyFails | backend_fastapi/app/schemas/audio/models.py:41-43 | the first missing required key, in the source's order, fails with a KeyError naming it |
| AuthSchemas.MakeTokenResponse | backend_fastapi/app/schemas/auth/schemas.py:24-27 | the token type defaults to "bearer", and the given token and type are kept |
| AuthSchemas.LoginEmailFacts | backend_fastapi/app/schemas/auth/schemas.py:8-21 | a non-string or blank login email is refused; an accepted one is stripped, lower-cased and accepted by `EmailStr`; one `EmailStr` refuses is an error with its message |
| AuthSchemas.DoubledDotMatches | backend_fastapi/app/utils/validators.py:15-17 | the email pattern admits "a..b@ex.io", whose local part has a doubled dot |
| AuthSchemas.LoginOfFields | backend_fastapi/app/schemas/auth/schemas.py:7-21 | with a string password, the login request is valid with the email validator's result, or a 422 whose one error is that validator's |
| AuthSchemas.LoginLeftToEmailStr | backend_fastapi/app/schemas/auth/schemas.py:7-21 | for a login whose address passes the format check unchanged, the request is valid exactly when `EmailStr` accepts it, and otherwise its one error is the `EmailStr` refusal |
| AuthSchemas.LoginPasswordAnyString | backend_fastapi/app/schemas/auth/schemas.py:9 | any string password passes the login model unchanged |
| StorageService.SanitizeFileName | backend_fastapi/app/services/storage/storage_service.py:62 | each space and "/" becomes "_", every other character is kept, and the length is kept |
| StorageService.SanitizedClean | backend_fastapi/app/services/storage/storage_service.py:62 | the sanitised name has no space or "/", and sanitising it again changes nothing |
| StorageService.FileKeySegments | backend_fastapi/app/services/storage/storage_service.py:55-64 | the key splits at "/" into "users", the user id, the file id and the sanitised name |
| StorageService.UploadOutcome | backend_fastapi/app/services/storage/storage_service.py:86-106 | the upload succeeds exactly when the put succeeds, giving the s3:// URL of the generated key; a client error and other errors map to the source's errors |
| StorageService.UploadUrlRoundTrip | backend_fastapi/app/services/storage/storage_service.py:100-116 | the URL an upload returns parses back to the bucket and the object key |
| StorageService.DeleteOutcome | backend_fastapi/app/services/storage/storage_service.py:132-148 | delete gives true when the object is deleted, false on a client error, and any other error propagates |
| StorageService.DeleteAfterUpload | backend_fastapi/app/services/storage/storage_service.py:108-148 | deleting or signing by the URL an upload returned addresses the very object that was put |
| RsaKeys.EncodeChar | backend_fastapi/app/utils/rsa_keys.py:25 | the UTF-8 encoding of one character is one to four bytes, and one byte exactly for ASCII |
| RsaKeys.Utf8Ascii | backend_fastapi/app/utils/rsa_keys.py:25 | encoding an ASCII key string gives its character codes one by one |
| RsaKeys.KeySourcePrecedence | backend_fastapi/app/utils/rsa_keys.py:11-41 | a non-empty key string wins and is used as its UTF-8 bytes; otherwise the path is read, and a missing file or no source is an error |
| RsaKeys.PublicMirrorsPrivate | backend_fastapi/app/utils/rsa_keys.py:44-74 | the public-key loader selects its source exactly as the private-key loader |
| RsaKeys.PublicMirrorsPrivateErrors | backend_fastapi/app/utils/rsa_keys.py:44-74 | the two loaders fail on the same inputs, naming their own key kind |
| FormatKeys.UniversalNewlines | backend_fastapi/scripts/format_keys_for_env.py:23 | text read in universal-newlines mode holds no carriage return and is no longer than the raw text |
| FormatKeys.UniversalNewlinesPlain | backend_fastapi/scripts/format_keys_for_env.py:23 | text without carriage returns reads back unchanged |
| FormatKeys.EscapeNewlines | backend_fastapi/scripts/format_keys_for_env.py:26 | the escaped text has no line break and is one character longer per line break |
| FormatKeys.UnescapeEscape | backend_fastapi/scripts/format_keys_for_env.py:26 | for a key without backslashes, reading the escapes back gives the key |
| FormatKeys.FormattedKeyFacts | backend_fastapi/scripts/format_keys_for_env.py:9-28 | a missing file fails; otherwise the result is one quoted line whose inside unescapes to the stripped key |
| FormatKeys.EscapeKeepsOther | backend_fastapi/scripts/format_keys_for_env.py:26 | escaping introduces no character but backslashes and n |
| Jwt.StrippedPieces | backend_fastapi/app/utils/jwt.py:33 | every piece kept is non-empty and stripped, and there are no more than the parts |
| Jwt.StrippedPiecesMembers | backend_fastapi/app/utils/jwt.py:33 | a string is kept exactly when it is the non-empty strip of some part |
| Jwt.ParseAudienceSplit | backend_fastapi/app/utils/jwt.py:16-34 | with or without a comma, the audiences are the non-empty stripped pieces of the comma split |
| Jwt.ParseAudienceClean | backend_fastapi/app/utils/jwt.py:16-34 | every audience is non-empty, has no comma and is its own strip |
| Jwt.ParseAudienceSingle | backend_fastapi/app/utils/jwt.py:32-34 | without a comma the whole stripped string is the one audience, or there is none if it is blank |
| Jwt.AccessTokenClaims | backend_fastapi/app/utils/jwt.py:79-96 | the claims are the caller's keys plus the four registered ones, and the caller's other claims are kept |
| Jwt.TruncAddSeconds | backend_fastapi/app/utils/jwt.py:94-95 | adding whole seconds to a time after the epoch adds them to its truncated timestamp |
| Jwt.RegisteredClaimValues | backend_fastapi/app/utils/jwt.py:91-96 | iss, aud, iat and exp hold the issuer, the audience list and the truncated issue and expiry times |
| Jwt.ClaimsOverwrite | backend_fastapi/app/utils/jwt.py:83-96 | the registered claims override the caller's, and by default exp is iat plus the configured hours |
| Jwt.TokenAudiences | backend_fastapi/app/utils/jwt.py:163-169 | a string aud becomes the one-element list of its strip |
| Jwt.StripAll | backend_fastapi/app/utils/jwt.py:172 | each expected audience is stripped, in place |
| Jwt.StripAllFixed | backend_fastapi/app/utils/jwt.py:172 | normalising audiences that are already stripped changes nothing |
| Jwt.CheckClaimsIff | backend_fastapi/app/utils/jwt.py:148-191 | a payload passes exactly when its issuer is the configured one, it has an aud claim, and one of its audiences is configured; it is then returned unchanged |
| Jwt.EmptyAudienceRejects | backend_fastapi/app/utils/jwt.py:177-188 | with no configured audience every token is refused |
| Jwt.OwnAudiences | backend_fastapi/app/utils/jwt.py:163-169 | the audience list written into a token reads back as itself |
| Jwt.OwnClaimsAccepted | backend_fastapi/app/utils/jwt.py:61-191 | the claims of a token this service issues pass its own claim checks exactly when an audience is configured |
| Jwt.PermissionsClaim | backend_fastapi/app/utils/jwt.py:213-221 | a refused or empty payload gives []; a non-empty payload whose `permissions` claim is a list gives exactly those items; a missing or non-list claim gives [] |
| Jwt.JwtKeys.constructor | backend_fastapi/app/utils/jwt.py:11-13 | both key caches start empty; the class invariant ties every cached key to what its configured source loads |
| Jwt.JwtKeys.GetPrivateKey | backend_fastapi/app/utils/jwt.py:37-46 | a cached key is returned without loading; otherwise the loaded key is cached, and a loading error caches nothing |
| Jwt.JwtKeys.GetPublicKey | backend_fastapi/app/utils/jwt.py:49-58 | the same for the verification key |
| Jwt.JwtKeys.CreateAccessToken | backend_fastapi/app/utils/jwt.py:61-107 | the token is the signature of the access-token claims with the cached private key, which the invariant makes the key the configured source loads; a loading error propagates and a cached key is kept |
| Jwt.JwtKeys.DecodeToken | backend_fastapi/app/utils/jwt.py:110-194 | the result is the claim check of the payload verified under the configured public key; a loading error propagates rather than giving None, and a cached key is kept |
| Jwt.JwtKeys.GetPermissionsFromToken | backend_fastapi/app/utils/jwt.py:213-221 | the permissions are the permissions claim of the payload checked under the configured public key; a loading error propagates, a cached key is kept, and the private key is unchanged |
| Jwt.KeysLoadedOnce | backend_fastapi/app/utils/jwt.py:37-58 | once both keys are cached, issuing and decoding tokens loads neither key again |
| Dependencies.ExtractTokenIff | backend_fastapi/app/core/dependencies.py:27-65 | credentials win; without them a token is found exactly for a one-word header or a two-word header with a "bearer" scheme, and is its last word; otherwise a 401 challenge |
| Dependencies.HeaderTokenIff | backend_fastapi/app/core/dependencies.py:47-55 | the header fallback finds a token exactly in the two accepted shapes |
| Dependencies.HeaderForms | backend_fastapi/app/core/dependencies.py:49-55 | "Bearer t" in any case and a bare "t" both give t, and another scheme gives nothing |
| Dependencies.InvalidTokenIs401 | backend_fastapi/app/core/dependencies.py:155-168 | no payload or a falsy subject is a 401 challenge, and a refusal is never a 403 |
| Dependencies.SynthesizedUser | backend_fastapi/app/core/dependencies.py:162-183 | the user is built from the token alone: the id is the subject, the email and permissions default to "" and [], and the names are placeholders |
| Dependencies.GetCurrentUser | backend_fastapi/app/core/dependencies.py:132-183 | no token is a 401, a cached public key is kept; the key is missing afterwards exactly when none was cached and the configured source fails to load, and then the answer is a 500; otherwise the user is the one built from the payload checked under the configured key; the private key and its load count are unchanged |
| Dependencies.LoadableKeyAuthenticates | backend_fastapi/app/core/dependencies.py:132-183 | on a fresh cache whose configured public key loads, a bearer token gives exactly the user built from the payload checked under that key, never the key-loading 500 |
| Dependencies.MissingAfterMembers | backend_fastapi/app/core/dependencies.py:230 | the accumulated missing names stay distinct and are the required names not held |
| Dependencies.MissingIsDifference | backend_fastapi/app/core/dependencies.py:230 | the missing permissions are exactly the set difference, each listed once |
| Dependencies.RequirePermissionsIff | backend_fastapi/app/core/dependencies.py:216-243 | admin passes; otherwise the check passes exactly when every required permission is held, and a refusal is a 403 naming the missing ones |
| Dependencies.RequireAnyPermissionIff | backend_fastapi/app/core/dependencies.py:262-289 | admin passes; otherwise the check passes exactly when one required permission is held, so requiring none forbids everyone else |
| Dependencies.AllImpliesAny | backend_fastapi/app/core/dependencies.py:193-289 | when something is required, passing the "all of" check implies passing the "any of" check |
| Dependencies.AdmitOrder | backend_fastapi/app/core/dependencies.py:186-243 | authentication is decided before permissions and permissions before the request's fields; a request is admitted exactly when all three pass |
| Dependencies.AdmitRefusesMissing | backend_fastapi/app/core/dependencies.py:230-240 | a non-admin lacking the one required permission gets the 403 naming it |
| UserService.WithReadAudioFacts | backend_fastapi/app/services/user/service.py:54-56 | read:audio is held afterwards, the given permissions keep their order, nothing else is added, and applying it twice changes nothing |
| UserService.CreatePermissionsFacts | backend_fastapi/app/services/user/service.py:51-56 | no list gives the defaults, and an empty list gives only read:audio |
| UserService.UpdateDictApplied | backend_fastapi/app/services/user/service.py:153-173 | applying the update dictionary entry by entry, then the read:audio check, gives the updated record |
| UserService.UpdatedFacts | backend_fastapi/app/services/user/service.py:152-173 | an update keeps the id and creation time and the fields not sent, stores only the password's hash, and leaves read:audio held |
| UserService.UpdateKeepsInvariant | backend_fastapi/app/services/user/service.py:143-176 | an update that passed the email check keeps emails unique and records under their own ids |
| UserService.CreateKeepsInvariant | backend_fastapi/app/services/user/service.py:40-69 | a creation that passed the email check keeps the store invariant |
| UserService.ParsedUpdateEmail | backend_fastapi/app/services/user/service.py:143-150 | the update schema never hands the service an empty email, and a given one matches the pattern and passed `EmailStr` |
| UserService.ApplyUpdates | backend_fastapi/app/services/user/service.py:167-169 | the setattr loop gives the entries applied in order |
| UserService.UserStore.constructor | backend_fastapi/app/services/user/service.py:24-31 | the store starts empty and valid |
| UserService.UserStore.GetUser | backend_fastapi/app/services/user/service.py:108-128 | a stored user is shown under its id, and an unknown id is a 404 |
| UserService.UserStore.CreateUser | backend_fastapi/app/services/user/service.py:33-82 | a taken email is a 409 and changes nothing; otherwise the new record, with hashed password and normalised permissions, is stored and shown |
| UserService.UserStore.UpdateUser | backend_fastapi/app/services/user/service.py:130-188 | an unknown id is a 404 and another user's email a 409, both changing nothing; otherwise exactly the updated record is stored and shown |
| UserService.UserStore.DeleteUser | backend_fastapi/app/services/user/service.py:190-212 | an unknown id is a 404, a failed store delete a 500, and otherwise exactly that user is removed |
| UserService.CreateThenGet | backend_fastapi/app/services/user/service.py:33-128 | a created user is shown as created, and after deletion is a 404 |
| AuthService.LoginFailuresIdentical | backend_fastapi/app/services/auth/service.py:41-56 | an unknown email and a wrong password get the same 401, and a login succeeds exactly when the password verifies |
| AuthService.LoginLifetimeIsConfigured | backend_fastapi/app/services/auth/service.py:59 | the login token lives for the configured number of hours |
| AuthService.LoginTokenAuthenticates | backend_fastapi/app/services/auth/service.py:58-67 | a login token passes the claim checks and authenticates as the logged-in user's id, email and permissions |
| AuthService.LoginClaimsNotRegistered | backend_fastapi/app/services/auth/service.py:61-65 | sub, email and permissions are not registered claims, so the token keeps them |
| AuthService.PayloadOfLogin | backend_fastapi/app/services/auth/service.py:61-65 | a payload with a user's subject, email and permissions gives that user back |
| AuthService.AuthenticateUser | backend_fastapi/app/services/auth/service.py:23-75 | an unknown email or a wrong password is the one 401; otherwise the bearer token signed over the user's claims with the configured private key; the 500 comes exactly when no key was cached and the configured source fails to load; the public key is unchanged and a cached private key is kept |
| AudioService.SizeMessagesAgree | backend_fastapi/app/services/audio/service.py:114-120 | both size checks word their refusal the same way at the configured limit |
| AudioService.SplitExtShape | backend_fastapi/app/services/audio/service.py:188-189 | an extension is empty or a dot followed by no dot or slash, and it ends the name |
| AudioService.SplitExtAgreesWithValidator | backend_fastapi/app/services/audio/service.py:188-189 | for a plain file name, the lower-cased extension the rename compares is the one the upload validator extracts |
| AudioService.RenamedFacts | backend_fastapi/app/services/audio/service.py:185-200 | a rename keeps the id, type, URL, metadata and creation time |
| AudioService.FileStore.constructor | backend_fastapi/app/services/audio/service.py:33-40 | the store starts empty under its bucket |
| AudioService.FileStore.GetFileForPlayback | backend_fastapi/app/services/audio/service.py:61-84 | an unknown file is a 404; otherwise the URL signed for the stored object, valid for 3600 seconds, and a signing error is a 500 |
| AudioService.StorageCallOutcomes | backend_fastapi/app/services/audio/service.py:127-139 | the storage call as written never succeeds; as intended it succeeds exactly when the object is put, giving that object's URL |
| AudioService.FileStore.UploadFile | backend_fastapi/app/services/audio/service.py:86-168 | for any storage call: a refused file is a 400 with the validator's message; an oversize body is a 400, a storage failure a 500; otherwise the record is stored under the new id with the storage URL |
| AudioService.FileStore.UploadFileAsWritten | backend_fastapi/app/services/audio/service.py:127-139 | as written, every upload that passes validation is the 500 "Failed to upload file to storage", and nothing is ever stored |
| AudioService.FileStore.UploadFileIntended | backend_fastapi/app/services/audio/service.py:86-168 | with the owner's id passed on, a validated upload whose object is put is stored with the URL of `users/{user_id}/{file_id}/{name}`, and one whose put fails is a 500 that stores nothing |
| AudioService.FileStore.UpdateFile | backend_fastapi/app/services/audio/service.py:170-211 | an unknown file is a 404 and a changed extension a 400, both changing nothing; otherwise exactly the renamed record is stored |
| AudioService.FileStore.DeleteFile | backend_fastapi/app/services/audio/service.py:213-248 | whatever the storage deletion gives, the record is removed, unless the store's delete fails, which is a 500 |
| AudioService.UploadPlayDelete | backend_fastapi/app/services/audio/service.py:61-248 | with the intended storage call, an uploaded file plays back with the URL signed for the object that was put, and after deletion is a 404 |
| UserRoutes.PathUserId | backend_fastapi/app/api/user/routes.py:126-129 | the path id reaches the service stripped, and a blank one is a 500 |
| UserRoutes.AuthenticationFirst | backend_fastapi/app/api/user/routes.py:20-168 | without a user, every endpoint answers the authentication error |
| UserRoutes.PermissionsForEveryUser | backend_fastapi/app/api/user/routes.py:20-40 | any authenticated user gets the list of all seven permissions |
| UserRoutes.PermissionTable | backend_fastapi/app/api/user/routes.py:51-168 | create and update need write:user, list and get need read:user, and delete needs delete:user, or a 403 naming it |
| UserRoutes.DefaultUserLockedOut | backend_fastapi/app/api/user/routes.py:51-168 | a user with only the default permissions gets a 403 from every endpoint but the permission list |
| UserRoutes.PathCheckedBeforeService | backend_fastapi/app/api/user/routes.py:111-183 | an admitted request reaches the service with the stripped id, and a blank id is a 500 |
| UserRoutes.AnsweredOnlyWhenPermitted | backend_fastapi/app/api/user/routes.py:48-183 | a request reaches the service only for an authenticated admin or holder of the required permission |
| AudioRoutes.PathFileId | backend_fastapi/app/api/audio/routes.py:80-81 | the path id reaches the service stripped, and a blank one is a 500 |
| AudioRoutes.AsWrittenNeverServes | backend_fastapi/app/api/audio/routes.py:49-194 | as written, no audio request is served; every admitted one is a 500 |
| AudioRoutes.AdminPlaybackFails | backend_fastapi/app/api/audio/routes.py:84-87 | an admin playing file_1 gets a 500 as written, where the intended route reaches the service |
| AudioRoutes.AuthenticationFirst | backend_fastapi/app/api/audio/routes.py:33-173 | without a user, every audio endpoint answers the authentication error |
| AudioRoutes.PermissionTable | backend_fastapi/app/api/audio/routes.py:34-174 | list and play need read:audio, upload and update write:audio, and delete delete:audio, or a 403 naming it |
| AudioRoutes.DefaultUserAudioAccess | backend_fastapi/app/api/audio/routes.py:34-174 | default users pass every audio permission check but delete's |
| AudioRoutes.PathCheckedBeforeService | backend_fastapi/app/api/audio/routes.py:63-194 | an admitted request reaches the service with the stripped id, and a blank id is a 500 |

## Findings

| source | as written | input that shows it | evidently intended | confidence | as-written member | corrected member |
|---|---|---|---|---|---|---|
| backend_fastapi/app/api/audio/routes.py:49-53 | every audio endpoint passes `user_id=` to an `AudioService` method that takes no such parameter (lines 84-87, 127-130, 160-164, 191-194); the listing endpoint calls `list_user_files`, which the service does not define (its method is `list_all_files`, backend_fastapi/app/services/audio/service.py:42) | an admin's `GET /audio/file_1/play` is admitted and then raises `TypeError`: a 500 | each endpoint calls the service method with the arguments that method takes | not executed | AudioRoutes.RouteAsWritten | AudioRoutes.Route |
| backend_fastapi/app/services/audio/service.py:127-139 | the service calls the storage's `upload_file` without `user_id`, which that method requires (backend_fastapi/app/services/storage/storage_service.py:66-73); the `TypeError` is caught and turned into a 500 | any upload that passes validation, such as `song.mp3` sent as `audio/mpeg`, is the 500 "Failed to upload file to storage" | the owner's id, which the upload route already passes to the service, reaches the storage | not executed | AudioService.FileStore.UploadFileAsWritten | AudioService.FileStore.UploadFileIntended |

The as-written member is shown failing by `AudioRoutes.AsWrittenNeverServes`
and `AudioRoutes.AdminPlaybackFails`. The intended properties are proved about
the corrected member by `AudioRoutes.PathCheckedBeforeService`,
`AudioRoutes.PermissionTable` and `AudioRoutes.DefaultUserAudioAccess`.

For the upload, `AudioService.StorageCallOutcomes` contrasts the two storage
calls, and `AudioService.UploadPlayDelete` runs an upload, playback and
deletion through the corrected method.

## Left out

- **Cryptography.** RS256 signing and signature/expiry verification are function parameters. RSA key generation and saving (backend_fastapi/app/utils/rsa_keys.py:77-123) are not modelled.
- **Password hashing and verification.** These are function parameters.
- **The clock, the naive-datetime timezone and `uuid4()`.** These are inputs. Times are integers in microseconds.
- **The persistence adapters** (MongoDB through Motor) are maps inside the store classes:
  - a store delete that reports failure is a boolean input;
  - a record insert under an id already in use is a 500.
- **The object storage client (boto3) and `asyncio.to_thread`.** These are function parameters that may fail.
- **List endpoints.** `list_users` (backend_fastapi/app/services/user/service.py:84-106) and `list_all_files` (backend_fastapi/app/services/audio/service.py:42-59) are not modelled. Their order and paging come from the database aggregation, which is not part of this model. The routes model only the call they make.
- **Framework wiring** is not modelled:
  - the dependency-injection factories (backend_fastapi/app/core/dependencies.py:68-129);
  - middleware, CORS and the health and UI routes;
  - the observability and logging code;
  - the configuration loading, with limits taken at their default values.
- **Ownership.** The audio routes' ownership checks are named in their doc comments only; the code has none.
- **Character classes.** `lower()`, `isupper()`, `islower()` and `isdigit()` are limited to ASCII, where Python uses Unicode classes. `strip()` and `split()` use Python's full whitespace set.
- **UTF-8 encoding.** Lone surrogates are not modelled; key strings are encoded character by character.
- **Values.** The megabyte figure of the size message is the exact quotient rounded half to even; the float rounding of `max_size_bytes / (1024 * 1024)` for sizes of 2^53 bytes or more is not modelled. Datetime coercion of Pydantic fields is not modelled.
- **Reading the key file.** Decoding errors of `read_text()` in the key-formatting script are not modelled.
- Dependencies.RequirePermissionsIff: the 403 detail lists the missing permissions in the order they are first required. The source joins a Python set, whose order is not fixed.
- UserService.UserStore.UpdateUser: a field sent as null is a 500 here, with nothing stored. In the source, a null name or email is written and saved before building the response raises. A null password or permission list raises before the save.
- **The `EmailStr` type.** Its `email_validator` library is the parameter `refusal`, giving the reason it refuses an address. The library's rules are not modelled. Its normalised form is taken to be the address itself, which holds for the lower-case ASCII addresses the format validator lets through.
- **Validation error entries.** A 422 entry keeps the text the validator raised and the bare field name, with "" for a model validator. Pydantic's rendered entry, with the "Value error, " prefix and the `("body", field)` location, is not modelled. The `EmailStr` refusal is the one entry whose text is pydantic's own.
- PyValue.Str: lists, dictionaries and datetimes render as the fixed texts "[...]", "{...}" and "<datetime>", not as Python's `str()`. Only scalars render exactly. This affects a document id or audience that is not a scalar.
