# Ethiopian Skill Match: the security core in Dafny

This project models the security core of the Ethiopian Skill Match web
application, a Jakarta-servlet system where seekers book service providers
and administrators verify providers. The model covers:

- **The gateway (`AuthFilter`).** Every request passes through it. It sets
  three hardening headers. It lets the public allow-list through by prefix.
  It refuses requests without a logged-in user (401 JSON or a redirect to the
  login page). It applies three role rules (403 JSON or the same redirect).
- **The utilities:**
  - `Validator`: the path-traversal, SQL and XSS deny-lists, the sanitiser,
    and the phone, password and phone-normalisation rules;
  - `PasswordUtil`: salted SHA-256 records `base64(salt):base64(digest)`;
  - `AlertUtil`: the JSON envelope and the output escaping chain.
- **The session lifecycle.**
  - `LoginServlet`: login checks its input, looks the user up by
    (normalised phone, role), verifies the password and attaches the user
    to the session. Logout invalidates the session.
  - `SignupServlet`: signup validates, refuses duplicates, hashes the
    password, stores the row with its status and notifies new providers.
- **The upload and status helpers of `ProviderServlet`:** the file name taken
  from the content-disposition header, the image-type whitelist, the
  character whitelist for file names, the stored path, and the availability
  whitelist.

The modules are:

| file | module | form |
|---|---|---|
| `java_lang.dfy` | `JavaLang` | the Java library semantics the core relies on: null as `Option`, exceptions as `Result`, `trim`, `split`, `replaceAll` with a literal pattern, `indexOf`, `substring`, `equalsIgnoreCase`, ASCII case folding, `Integer.toString` |
| `http.dfy` | `Http` | the request (parameters, session) and the response as a class whose setters change its fields |
| `store.dfy` | `Store` | the users, provider_details and notifications tables as fields of a `Database` class |
| `alert_util.dfy` | `AlertUtil` | the escaping chain as a function, the senders as methods on the response |
| `validator.dfy` | `Validator` | pure predicates and functions, the regexes decoded into substring tests |
| `password_util.dfy` | `PasswordUtil` | `MessageDigest` as a class, `hashPassword` as a method, `verifyPassword` and `isValidHashFormat` as functions |
| `auth_filter.dfy` | `AuthFilter` | the decision as a function; `isPublicPath` with its loop and `doFilter` as methods |
| `login_servlet.dfy` | `LoginServlet` | the login decision as a function; `doPost` and `doGet` as methods on the request and the response |
| `signup_servlet.dfy` | `SignupServlet` | the check chain as a function; `doPost` as a method on the database and the response |
| `provider_servlet.dfy` | `ProviderServlet` | `getFileName` with its loop, `saveUploadedFile` and `updateStatus` as methods |
| `session_lifecycle.dfy` | `Lifecycle` | lemmas across the servlets and the gateway |

Two behaviours of the code are easy to misread; the model follows the code:

- The role rules are not first-match. All three rules are applied, so a path
  in two areas is refused to every role (`AuthFilter.TwoAreasDenyEveryone`).
- The SQL pattern's `/\\*` and `\\*/` alternatives match a lone slash, so any
  `/` is flagged.

## Model

| member | source | states |
|---|---|---|
| AuthFilter.Decide | src/ethioskill/filters/AuthFilter.java:53-72 | the gateway's decision: public, unauthenticated, forbidden or pass; PassesExactly and NoUserIsUnauthenticated state it |
| AuthFilter.HasAccess | src/ethioskill/filters/AuthFilter.java:84-111 | the three role rules applied together; AreaNeedsExactRole, TwoAreasDenyEveryone and NoAreaAllowsAnyRole state it |
| AuthFilter.IsPublicPath | src/ethioskill/filters/AuthFilter.java:75-82 | the loop answers true exactly when the path starts with one of the eight public prefixes |
| AuthFilter.DenialFor | src/ethioskill/filters/AuthFilter.java:113-139 | an API path (leading '/' and ending in "Servlet" or containing "api") gets a JSON failure envelope with 401 for the unauthenticated case and 403 for the forbidden case; every other path is redirected to the context path plus /pages/login.html |
| AuthFilter.HandleDenial | src/ethioskill/filters/AuthFilter.java:113-139 | the response ends in the state the denial prescribes: content type, status and envelope without a character encoding, or the redirect |
| AuthFilter.SetSecurityHeaders | src/ethioskill/filters/AuthFilter.java:41-44 | the three hardening headers are added and nothing else of the response changes |
| AuthFilter.DoFilter | src/ethioskill/filters/AuthFilter.java:32-73 | the request is forwarded exactly when the path is public or the session's user has access; the headers are always set; a refused request gets the 401 or 403 answer; the session is never changed |
| AuthFilter.PassesExactly | src/ethioskill/filters/AuthFilter.java:53-72 | fail-closed, in both directions: a request is let through if and only if its path is public or it carries a user whose role passes all three rules |
| AuthFilter.NoUserIsUnauthenticated | src/ethioskill/filters/AuthFilter.java:59-62 | a missing session or a session without a user is refused as unauthenticated on every non-public path |
| AuthFilter.PublicIsPrefixClosed | src/ethioskill/filters/AuthFilter.java:75-82 | anything appended to a public path stays public, with or without a session |
| AuthFilter.StylesheetIsPublic | src/ethioskill/filters/AuthFilter.java:17-26 | /css/admin-dashboard.css is on the allow-list |
| AuthFilter.StylesheetInAdminArea | src/ethioskill/filters/AuthFilter.java:86-87 | the same path also falls under the admin rule |
| AuthFilter.PublicBeforeRoles | src/ethioskill/filters/AuthFilter.java:53-56 | the public check comes first, so that admin-looking stylesheet is served without a session |
| AuthFilter.AreaNeedsExactRole | src/ethioskill/filters/AuthFilter.java:84-111 | a path in the admin, provider or seeker area is allowed only to its own role string ("Admin", "Provider" or "Seeker"), and is allowed to it when the path is in no other area |
| AuthFilter.TwoAreasDenyEveryone | src/ethioskill/filters/AuthFilter.java:84-111 | a path in two areas is refused to every role |
| AuthFilter.OverlappingPathExample | src/ethioskill/filters/AuthFilter.java:93-108 | /ProviderServlet/booking-form is refused to every role, a Provider included |
| AuthFilter.NoAreaAllowsAnyRole | src/ethioskill/filters/AuthFilter.java:110 | outside the three areas, any logged-in user passes whatever its role string |
| AuthFilter.AdminServletNotPublic | src/ethioskill/filters/AuthFilter.java:17-26 | /AdminServlet is not on the allow-list |
| AuthFilter.AdminServletNotProviderArea | src/ethioskill/filters/AuthFilter.java:93-96 | /AdminServlet is outside the provider area |
| AuthFilter.AdminServletNotSeekerArea | src/ethioskill/filters/AuthFilter.java:103-105 | /AdminServlet is outside the seeker area |
| AuthFilter.AdminServletExamples | src/ethioskill/filters/AuthFilter.java:59-72 | on /AdminServlet: no session gives Unauthenticated, a Seeker gets Forbidden and the 403 JSON envelope "Access denied", and an Admin passes |
| AuthFilter.PageDenialRedirects | src/ethioskill/filters/AuthFilter.java:121-124 | an unauthenticated request for /pages/seeker-dashboard.html is redirected to the login page |
| AuthFilter.NotApiPath | src/ethioskill/filters/AuthFilter.java:117 | a path that does not end in 't' and has no 'i' is never an API path |
| AlertUtil.SanitizeOutput | src/ethioskill/Utils/AlertUtil.java:14-21 | null stays null, and text stays text |
| AlertUtil.SanitizeOutputNoMarkup | src/ethioskill/Utils/AlertUtil.java:14-21 | the escaped text holds no '<', '>', '"' or '\'' |
| AlertUtil.SanitizeOutputEscapesTwice | src/ethioskill/Utils/AlertUtil.java:16-18 | the chain runs '&' after '<', so "<" comes out as "&amp;lt;" |
| AlertUtil.MessageEnvelope | src/ethioskill/Utils/AlertUtil.java:23-37 | the envelope has the given success flag; its message is null exactly when the input message is null, and otherwise holds no markup |
| AlertUtil.SendError | src/ethioskill/Utils/AlertUtil.java:23-29 | the response becomes JSON in UTF-8 with the failure envelope of the escaped message appended |
| AlertUtil.SendSuccess | src/ethioskill/Utils/AlertUtil.java:31-37 | the same with the success envelope |
| AlertUtil.SendSuccessData | src/ethioskill/Utils/AlertUtil.java:39-45 | the success envelope with the message "Success" and the data, which are not escaped |
| Validator.ContainsPathTraversal | src/ethioskill/Utils/Validator.java:16-19 | find() with the traversal pattern, null never flagged; characterised by PathTraversalExactly |
| Validator.ContainsSqlInjection | src/ethioskill/Utils/Validator.java:21-24 | find() with the SQL pattern, ASCII case-insensitive; characterised by SqlInjectionExactly |
| Validator.ContainsXss | src/ethioskill/Utils/Validator.java:26-29 | find() with the XSS pattern, ASCII case-insensitive; XssScriptFormsAreSql and ValidInputExactly state what it adds to the SQL test |
| Validator.IsValidInput | src/ethioskill/Utils/Validator.java:31-36 | null passes, anything a detector flags fails; characterised by ValidInputExactly |
| Validator.PathTraversalExactly | src/ethioskill/Utils/Validator.java:8 | the path-traversal pattern flags a string if and only if it contains "../" or a dot followed by two backslashes |
| Validator.BackslashTraversalMissed | src/ethioskill/Utils/Validator.java:8 | "..\" on its own is not flagged |
| Validator.ScriptSubsumes | src/ethioskill/Utils/Validator.java:11 | the "<script" and "javascript:" alternatives imply the "script" keyword in any case |
| Validator.SqlPunctuationAlternatives | src/ethioskill/Utils/Validator.java:11 | the first five alternatives match exactly the strings with a quote, a slash, a semicolon or "--" |
| Validator.SqlKeywordAlternatives | src/ethioskill/Utils/Validator.java:11 | the remaining alternatives match exactly the strings holding one of the nine keywords in any ASCII case |
| Validator.SqlFlaggedHasReason | src/ethioskill/Utils/Validator.java:11-24 | whatever the SQL detector flags has a quote, slash, semicolon, "--" or keyword |
| Validator.SqlReasonIsFlagged | src/ethioskill/Utils/Validator.java:11-24 | each of those is flagged |
| Validator.SqlInjectionExactly | src/ethioskill/Utils/Validator.java:11-24 | both directions together |
| Validator.XssScriptFormsAreSql | src/ethioskill/Utils/Validator.java:11-14 | a string holding either script alternative of the XSS pattern is already flagged by the SQL pattern |
| Validator.ValidInputExactly | src/ethioskill/Utils/Validator.java:31-36 | null is valid input; a string is valid exactly when it holds no "../" or dot and two backslashes, no SQL reason, and none of the nine XSS alternatives other than the two script forms |
| Validator.ValidInputExcludes | src/ethioskill/Utils/Validator.java:31-36 | valid input has no quote, slash, semicolon or "--", no "<script" in any ASCII case and no "../" |
| Validator.QuoteInjectionIsFlagged | src/ethioskill/Utils/Validator.java:11-36 | the SQL pattern flags "Robert'); DROP TABLE users;--", so it is not valid input |
| Validator.UpperCaseScriptIsFlagged | src/ethioskill/Utils/Validator.java:14 | the XSS detector ignores ASCII case: "<SCRIPT>alert(1)</SCRIPT>" is flagged |
| Validator.SanitizeInput | src/ethioskill/Utils/Validator.java:38-48 | null stays null, and text stays text |
| Validator.SanitizeInputRemovesScriptOpener | src/ethioskill/Utils/Validator.java:38-48 | the sanitised text is trimmed and contains no lower-case "<script" |
| Validator.SanitizeInputKeepsUpperCase | src/ethioskill/Utils/Validator.java:42-45 | the rewrites are case-sensitive: "<SCRIPT>" passes unchanged |
| Validator.IsValidPhone | src/ethioskill/Utils/Validator.java:51-67 | true exactly when the phone is present and, trimmed, is 09 or 07 plus eight digits or +251 plus nine digits |
| Validator.FormatPhone | src/ethioskill/Utils/Validator.java:76-87 | null stays null; otherwise the result is trimmed and no longer than the input |
| Validator.FormatPhoneIdempotent | src/ethioskill/Utils/Validator.java:76-87 | normalising twice is normalising once |
| Validator.FormatInternational | src/ethioskill/Utils/Validator.java:82-84 | a trimmed +251 number becomes ten digits starting with 0 |
| Validator.FormatLocal | src/ethioskill/Utils/Validator.java:86 | a trimmed 09 or 07 number is kept: ten digits starting with 0 |
| Validator.FormatValidPhone | src/ethioskill/Utils/Validator.java:59-87 | every valid phone normalises to ten ASCII digits starting with 0 |
| Validator.InternationalSpelling | src/ethioskill/Utils/Validator.java:76-87 | "+251" plus nine digits is valid and normalises to "0" plus the digits |
| Validator.LocalSpelling | src/ethioskill/Utils/Validator.java:76-87 | "0" plus nine digits normalises to itself and is valid exactly when the digits start with 9 or 7 |
| Validator.InternationalAndLocalShareKey | src/ethioskill/Utils/Validator.java:51-87 | both spellings of one subscriber share one key |
| Validator.FormatPhoneCanLeaveInvalid | src/ethioskill/Utils/Validator.java:76-87 | +251812345678 is valid but normalises to 0812345678, which the rule refuses |
| Validator.IsValidPassword | src/ethioskill/Utils/Validator.java:56-74 | true exactly when the password is present, at least six characters, has a digit, a lower-case and an upper-case ASCII letter, and no whitespace or line terminator |
| Validator.ValidPasswordNotBlank | src/ethioskill/Utils/Validator.java:70 | a valid password is not blank, so the blank test excludes nothing more |
| Validator.PasswordWithoutCapitalRefused | src/ethioskill/Utils/Validator.java:57 | "abc123" is refused |
| Validator.StrongPasswordAccepted | src/ethioskill/Utils/Validator.java:57 | "Abcdef1" is accepted |
| PasswordUtil.MessageDigest.Update | src/ethioskill/Utils/PasswordUtil.java:27 | the salt is appended to the buffered input |
| PasswordUtil.MessageDigest.Digest | src/ethioskill/Utils/PasswordUtil.java:27-28 | the digest hashes the buffered salt followed by the input and resets the buffer |
| PasswordUtil.GetInstance | src/ethioskill/Utils/PasswordUtil.java:26 | a fresh digest exactly when the algorithm is available, NoSuchAlgorithmException otherwise |
| PasswordUtil.NextBytes | src/ethioskill/Utils/PasswordUtil.java:21-23 | the salt array is filled with the generator's sixteen bytes |
| PasswordUtil.StoredHash | src/ethioskill/Utils/PasswordUtil.java:26-34 | the record hashPassword builds; StoredHashFormat, VerifyStoredHash and VerifyRoundTrip state it |
| PasswordUtil.HashPassword | src/ethioskill/Utils/PasswordUtil.java:18-38 | the record base64(salt) ":" base64(SHA-256(salt + bytes)); a missing algorithm throws a wrapping RuntimeException, a null password a NullPointerException |
| PasswordUtil.VerifyPassword | src/ethioskill/Utils/PasswordUtil.java:46-70 | acceptance needs both values present, the algorithm available and a record splitting into exactly two pieces |
| PasswordUtil.IsValidHashFormat | src/ethioskill/Utils/PasswordUtil.java:77-84 | a valid record is present and holds a ':' |
| PasswordUtil.EncodingHasNoColon | src/ethioskill/Utils/PasswordUtil.java:31-34 | base64 text never holds the separator |
| PasswordUtil.StoredHashFormat | src/ethioskill/Utils/PasswordUtil.java:31-84 | a record is 69 characters, its only ':' at index 24, it splits back into the two encodings, and it passes the format check |
| PasswordUtil.VerifyStoredHash | src/ethioskill/Utils/PasswordUtil.java:46-70 | an attempt verifies against a record exactly when the algorithm is available and the attempt's salted digest equals the password's |
| PasswordUtil.VerifyRoundTrip | src/ethioskill/Utils/PasswordUtil.java:18-70 | a password verifies against the record made from it |
| PasswordUtil.HashFormatExamples | src/ethioskill/Utils/PasswordUtil.java:77-84 | null, "", "abcdef", "abc:" and ":xyz" fail the format check |
| PasswordUtil.HashFormatIgnoresTrailingColon | src/ethioskill/Utils/PasswordUtil.java:82-83 | split drops the trailing empty piece, so "a:b:" passes |
| PasswordUtil.VerifyAcceptsEmptySalt | src/ethioskill/Utils/PasswordUtil.java:46-84 | a record with an empty salt verifies, yet fails the format check |
| Store.Database.InsertUser | src/ethioskill/controllers/SignupServlet.java:77-93 | one row under its phone with the next generated id; the table invariant (keyed by phone, distinct ids) is kept |
| Store.Database.SetUserStatus | src/ethioskill/controllers/SignupServlet.java:97-101 | the rows holding the id take the status; nothing else changes |
| Store.Database.SendNotification | src/ethioskill/database/DatabaseHelper.java:127-140 | one notification is appended |
| Store.Database.UpdateAvailability | src/ethioskill/controllers/ProviderServlet.java:410-415 | only an existing provider_details row changes |
| Store.FindUser | src/ethioskill/controllers/LoginServlet.java:56-63 | the lookup by phone and role; its meaning is stated by FindUserIsQuery |
| Store.FindUserIsQuery | src/ethioskill/controllers/LoginServlet.java:56-63 | on a table keyed by phone, a row is found exactly when some stored row has that phone and that role, and the row found is one of them |
| LoginServlet.Login | src/ethioskill/controllers/LoginServlet.java:41-100 | handleLogin's decision; ValidationOrder, LoggedInOnlyAfterVerify, SameAnswerForUnknownUserAndWrongPassword and LoginDependsOnKey state it |
| LoginServlet.Authenticate | src/ethioskill/controllers/LoginServlet.java:56-100 | the lookup and password check; StoredRowAuthenticates and NeedsRegistrationOnlyForProviders state it |
| LoginServlet.DoPost | src/ethioskill/controllers/LoginServlet.java:22-106 | the response and the session are those the login decision prescribes: a rejection writes its message and leaves the session alone; success attaches the user and writes the reply |
| LoginServlet.DoGet | src/ethioskill/controllers/LoginServlet.java:116-127 | the session is gone, the client is redirected to the login page, and the gateway now finds every non-public path unauthenticated |
| LoginServlet.LoggedInOnlyAfterVerify | src/ethioskill/controllers/LoginServlet.java:53-80 | a user is attached only for a stored row under the normalised phone with the requested role whose record verifies the password, and the user carries that row's fields |
| LoginServlet.SameAnswerForUnknownUserAndWrongPassword | src/ethioskill/controllers/LoginServlet.java:64-100 | an unknown (phone, role) pair and a wrong password get the same message |
| LoginServlet.ValidationOrder | src/ethioskill/controllers/LoginServlet.java:41-50 | "All fields are required" exactly when a field is null or the phone or password is blank; the phone-format message exactly when that passed and the phone is invalid |
| LoginServlet.NeedsRegistrationOnlyForProviders | src/ethioskill/controllers/LoginServlet.java:88-114 | needsRegistration is present only for the Provider role, and is true exactly when no provider_details row exists |
| LoginServlet.LoginDependsOnKey | src/ethioskill/controllers/LoginServlet.java:47-59 | two valid phones with one normalised form get the same answer |
| LoginServlet.PhoneSpellingsLogInAlike | src/ethioskill/controllers/LoginServlet.java:53 | +251 plus nine digits and 0 plus the same digits log in alike when the digits start with 9 or 7 |
| SignupServlet.SignupCheck | src/ethioskill/controllers/SignupServlet.java:43-68 | the check chain in source order; SignupAcceptsExactly and FirstFailureWins state it |
| SignupServlet.InitialStatus | src/ethioskill/controllers/SignupServlet.java:71 | "Verified" exactly for a Seeker, "Pending" otherwise |
| SignupServlet.FinalStatus | src/ethioskill/controllers/SignupServlet.java:71-103 | "Verified" exactly for a Seeker or an auto-verified Provider, "Pending" otherwise |
| SignupServlet.WelcomeMessage | src/ethioskill/controllers/SignupServlet.java:114-119 | the welcome prefix, then the pending notice exactly when the status is "Pending" |
| SignupServlet.DoPost | src/ethioskill/controllers/SignupServlet.java:22-135 | a wrong action or a failing check writes its message and leaves the database alone; otherwise the account is created as CreateAccount states; the table invariant is kept |
| SignupServlet.CreateAccount | src/ethioskill/controllers/SignupServlet.java:71-125 | a missing algorithm lets the exception escape with nothing changed; otherwise one row under the key with the next id, the salted record, the account type and the final status; a Provider gets the welcome notification; the reply carries the id and status |
| SignupServlet.InsertAccount | src/ethioskill/controllers/SignupServlet.java:76-103 | after the insert and the auto-verify update, the new row holds the final status and the other rows are unchanged |
| SignupServlet.SignupAcceptsExactly | src/ethioskill/controllers/SignupServlet.java:43-68 | an account is let through exactly when the name and account type are present, the name is not blank, phone and password pass their rules and the normalised phone is not registered |
| SignupServlet.FirstFailureWins | src/ethioskill/controllers/SignupServlet.java:43-68 | each message is given exactly when every earlier check passed and its own failed |
| SignupServlet.AccountTypeNotChecked | src/ethioskill/controllers/SignupServlet.java:43-85 | the account type's value never changes the verdict, "Admin" included |
| SignupServlet.DuplicateAcrossSpellings | src/ethioskill/controllers/SignupServlet.java:61-68 | once 0 plus nine digits starting with 9 is registered, +251 plus the same digits is refused |
| ProviderServlet.NoNamingTokenGivesEmpty | src/ethioskill/controllers/ProviderServlet.java:509-517 | with no token naming the file, the name is empty |
| ProviderServlet.FirstNamingTokenWins | src/ethioskill/controllers/ProviderServlet.java:511-514 | otherwise the name is cut from the first naming token |
| ProviderServlet.FileName | src/ethioskill/controllers/ProviderServlet.java:509-517 | the token scan as a function; NoNamingTokenGivesEmpty, FirstNamingTokenWins and QuotedFileNameRoundTrip state it |
| ProviderServlet.GetFileName | src/ethioskill/controllers/ProviderServlet.java:509-517 | the loop gives what the token scan prescribes; a null header throws |
| ProviderServlet.QuotedFileNameRoundTrip | src/ethioskill/controllers/ProviderServlet.java:509-517 | for form-data; filename="n" the name comes back as n when n holds no ';' |
| ProviderServlet.QuotedTokenCut | src/ethioskill/controllers/ProviderServlet.java:512-513 | the token filename="n" after one space names the file and is cut back to n |
| ProviderServlet.NoFileNameGivesEmpty | src/ethioskill/controllers/ProviderServlet.java:516 | a header whose tokens never name a file gives "" |
| ProviderServlet.BareFileNameThrows | src/ethioskill/controllers/ProviderServlet.java:513 | filename= with nothing after it makes substring throw |
| ProviderServlet.IsValidImageType | src/ethioskill/controllers/ProviderServlet.java:519-523 | an accepted type is present and nine or ten characters long |
| ProviderServlet.ImageTypesExactly | src/ethioskill/controllers/ProviderServlet.java:519-523 | on ASCII text, accepted exactly when the lower-cased type is image/jpeg, image/jpg or image/png |
| ProviderServlet.ImageTypeExamples | src/ethioskill/controllers/ProviderServlet.java:519-523 | IMAGE/PNG passes; image/gif and null do not |
| ProviderServlet.DottedCapitalIPasses | src/ethioskill/controllers/ProviderServlet.java:519-523 | equalsIgnoreCase folds U+0130 onto 'i', so "İmage/png" passes |
| ProviderServlet.SanitizeFileName | src/ethioskill/controllers/ProviderServlet.java:388 | length is preserved, every character is in [a-zA-Z0-9._-], those already there are kept, the others become '_' |
| ProviderServlet.SanitizeIdempotent | src/ethioskill/controllers/ProviderServlet.java:388 | rewriting twice is rewriting once |
| ProviderServlet.SanitizeKeepsSafe | src/ethioskill/controllers/ProviderServlet.java:388 | a name of safe characters is kept |
| ProviderServlet.StoredNameIsOneComponent | src/ethioskill/controllers/ProviderServlet.java:396-400 | the stored name has no '/' or '\', is never "." or "..", and the path is "uploads/" followed by it |
| ProviderServlet.TraversalNameFlattened | src/ethioskill/controllers/ProviderServlet.java:388-400 | ../x uploaded by user 7 is stored as uploads/7_.._x |
| ProviderServlet.UploadDirectory.Write | src/ethioskill/controllers/ProviderServlet.java:398 | the file under the name holds the content and no other file changes |
| ProviderServlet.SaveUploadedFile | src/ethioskill/controllers/ProviderServlet.java:380-401 | getFileName's exceptions escape; an empty name or a non-image type gives null with nothing written; otherwise the content is written under the stored name and the path is returned |
| ProviderServlet.UpdateStatus | src/ethioskill/controllers/ProviderServlet.java:403-421 | any status other than Available or Rest, null included, is refused with "Invalid status" and the database untouched; otherwise the provider's row takes it and success is answered; stored values stay within the two |
| Lifecycle.SignupThenLogin | src/ethioskill/controllers/SignupServlet.java:61-85 | after an accepted signup, login with the same phone, password and account type attaches the new row's user, and the stored password has the record format |
| Lifecycle.AcceptedSignupPassesLoginChecks | src/ethioskill/controllers/LoginServlet.java:41-53 | fields signup accepted also pass login's checks, so login looks up the same key |
| Lifecycle.StoredRowAuthenticates | src/ethioskill/controllers/LoginServlet.java:63-91 | a row with the requested role holding the record of the password logs in |
| Lifecycle.SelfRegisteredAdminPasses | src/ethioskill/controllers/SignupServlet.java:43-85 | a client can sign up as "Admin", log in with that role while still "Pending", and pass the gateway's admin rule |
| Lifecycle.LogoutLocksOut | src/ethioskill/controllers/LoginServlet.java:117-127 | whatever came before, a client whose last step was a logout is unauthenticated on every non-public path |
| Lifecycle.AfterLogout | src/ethioskill/controllers/LoginServlet.java:121-124 | after a sequence ending in a logout the client holds no session |
| Lifecycle.NoLoginNoAccess | src/ethioskill/filters/AuthFilter.java:59-62 | a client that starts without a user and never has a login accepted is unauthenticated on every non-public path |
| Lifecycle.LoginAnswerIsStep | src/ethioskill/controllers/LoginServlet.java:64-100 | the session LoginServlet.DoPost's contract prescribes for a login result is the session a login step gives |
| Lifecycle.LogoutAnswerIsStep | src/ethioskill/controllers/LoginServlet.java:121-124 | the session LoginServlet.DoGet leaves is the session a logout step gives |
| Lifecycle.GatewayReadsOnlyRole | src/ethioskill/filters/AuthFilter.java:64-67 | the gateway's decision depends on the user's role alone, never on its status |

## Left out

- Database failures are not modelled. This covers SQLException and its "Database error" answers, and the "Registration failed" answer when an insert affects no row. Every statement succeeds, and a generated key always exists.
- Requests are modelled one at a time, and the users table is a map keyed by the normalised phone. In the code the duplicate-phone query (SignupServlet.java lines 65 and 137-143) and the INSERT (lines 77-86) are separate auto-committed statements with no lock or transaction around them. Two concurrent signups with one normalised phone could therefore both pass the check. Without a unique index they store two rows; with one, the second INSERT throws. Rows written outside signup could duplicate a phone as well. `Store.Database.Valid`, `Store.KeyedByPhone`, `Store.FindUserIsQuery` and `Lifecycle.SignupThenLogin` rest on this uniqueness.
- `PasswordUtil.VerifyPassword` compares digests with `==`. The code uses `MessageDigest.isEqual` (PasswordUtil.java line 65), which is constant-time. The result is the same, but timing is not modelled.
- SHA-256, base64 and `String.getBytes` are abstract functions. `PasswordUtil.Lawful` assumes only the digest length, the encoded length and alphabet, and that decoding inverts encoding. SecureRandom's bytes are a parameter.
- `DatabaseHelper.isAutoVerifyEnabled` is a parameter of `SignupServlet.DoPost`; its own database read is not modelled.
- Gson's JSON text is not modelled; the values handed to it are. The servlet container, `FilterChain.doFilter`, `getRealPath`, `mkdirs` and the bytes `part.write` puts on disk are not modelled either. The upload directory is a map from stored names to contents.
- `AuthFilter.DoFilter` requires the request URI to start with the context path, which the container guarantees. The filter's empty branch for login URLs does nothing and is not modelled.
- Strings are sequences of code points. UTF-16 surrogate pairs are not modelled, so `SanitizeFileName`'s length claim counts code points.
- `ProviderServlet.IsValidImageType` is characterised exactly only for ASCII content types (`ImageTypesExactly`). Beyond ASCII, `FoldChar` covers the code points that fold onto an ASCII letter.
- Validator.IsValidInput: no example of an accepted plain name is proved; ValidInputExactly characterises acceptance for every input.
- The other ProviderServlet handlers (registration, profile, bookings, notifications, skills and cities) and its role checks in doGet/doPost are database and multipart plumbing. The seeker and admin servlets are not modelled either.
