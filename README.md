# plant-identifier: a Dafny model of the server core

PLANTIDEN is a Next.js web application. A signed-in user uploads a photo
of a plant. A vision model describes the plant, and a line parser turns
that reply into a six-field record: name, scientific name, family, type,
care level and description. Accounts are created with a six-digit
one-time code (OTP) mailed to the address. Passwords are hashed with bcrypt. A session is
an HS256 JSON Web Token (JWT) that lives for one hour, carried in an
HTTP-only `token` cookie. A middleware sends every request without a
valid session to the login page. The profile page shows the user's
recent identifications and a bar chart of how often each plant was found.

The model covers these parts:

- **IdentifyPlant** (`identify.dfy`): the POST /api/identify-plant
  handler, including the image guard and the check on the reply, and the
  parser from reply text to `PlantInfo`. It proves which line each field
  comes from and that a canonical labelled reply parses back to the
  record it was written from.
- **Middleware** (`middleware.dfy`): the request gate (exempt paths,
  the cookie test, token verification) and the path matcher that
  decides where the gate runs.
- **Session** (`session.dfy`): token claims and expiry, and the cookies
  that login and logout set, with the browser's expiry rules from section
  5.3 of RFC 6265. It also holds GET /api/check-auth and POST /api/logout.
  bcrypt and jose are an opaque `Crypto` value, constrained only by
  `Sound`.
- **Otp** (`otp.dfy`): the code generator. A code is 100000 plus a draw
  below 900000, printed in decimal.
- **Tables** (`tables.dfy`): the `users` rows and the two code tables,
  and the queries the routes run on them, as functions over rows in
  table order.
- **Accounts** (`accounts.dfy`): the routes that write the database
  (register, send-otp, forgot-password, reset-password, change-password),
  as methods of the `Store` class over its table fields. It also holds
  the read-only routes login, check-availability and profile, as
  functions. Login returns the cookie jar its response sets.
- **History** (`history.dfy`): GET /api/plant-identifications, which
  returns the user's rows newest first, at most ten.
- **Dashboard** (`dashboard.dfy`): the profile page's data steps. The
  page keeps the last six rows received and cleans their names. The
  chart's labels are the distinct names, and its counts are how many
  entries carry each label.
- **Support modules**:
  - `text.dfy` models the JavaScript string operations the code uses.
    `Text.Trim` strips ECMAScript whitespace. `Text.ToLower` lower-cases
    ASCII letters only. `Text.ReplaceFirst` replaces only the first match
    of a string pattern.
  - `arrays.dfy` models `find`, `filter` and counting.
  - `http.dfy` holds responses and their JSON bodies.
  - `wrappers.dfy` is the option type.

External inputs are parameters:

- the vision model's reply (`Reply`);
- the clock (`now`, whole seconds);
- the random draws;
- bcrypt's salt;
- whether the mail transport succeeded (`mailOk`);
- the mail template read from disk (`None` when the read fails);
- `NODE_ENV === "production"` (`production`);
- whether the database throws (`online` on the store, or `dbError` for
  the history query).

Three behaviours of the code worth noting:

- POST /api/identify-plant stores no identification record. It only
  returns the parsed record.
- A token that fails verification in POST /api/change-password gets a
  500, not a 401.
- In GET /api/profile, a database error answers 401.

## Model

| member | source | states |
|---|---|---|
| IdentifyPlant.Identify | app/api/identify-plant/route.ts:6-97 | No image: 400 "No image provided". An unreadable form, a failed call or a non-string content: 500 "Failed to identify plant". A string reply: 200 with the record parsed from it. |
| IdentifyPlant.Lines | app/api/identify-plant/route.ts:54 | The kept lines are the pieces of the reply split at line breaks, filtered, in order, by being non-blank once trimmed. None contains a line break. |
| IdentifyPlant.FindLine | app/api/identify-plant/route.ts:57-58 | The line found is at some position where the lower-cased line carries the key, and no earlier line carries it. No line is found exactly when no line carries it. |
| IdentifyPlant.Parse | app/api/identify-plant/route.ts:55-88 | Every field of the record is non-empty, because each missing or blank value falls back to its default. |
| IdentifyPlant.ShortValueBetweenColons | app/api/identify-plant/route.ts:59-60 | A short field is the trimmed text between the first and second colon of its line. The rest of the line is dropped. Empty text gives "Unknown". |
| IdentifyPlant.ShortValueSingleColon | app/api/identify-plant/route.ts:59-60 | On a line with one colon, a short field is the trimmed text after that colon, or "Unknown". |
| IdentifyPlant.LongValueAfterFirstColon | app/api/identify-plant/route.ts:84-87 | The description keeps all text after the first colon, later colons included, trimmed, or "No description available". |
| IdentifyPlant.MissingKeyDefaults | app/api/identify-plant/route.ts:56-87 | A key found on no line gives "Unknown" for a short field and "No description available" for the description. |
| IdentifyPlant.ScientificNameLineHasNameKey | app/api/identify-plant/route.ts:56-65 | Every line that matches "scientific name:" also matches "name:". |
| IdentifyPlant.HasKeyRendered | app/api/identify-plant/route.ts:58 | A `Label: value` line matches a key exactly when the lower-cased label plus its colon ends with the key. |
| IdentifyPlant.ShortValueRendered | app/api/identify-plant/route.ts:59-60 | The short value of a rendered line is its entry's value, trimmed, with the fallback. |
| IdentifyPlant.LongValueRendered | app/api/identify-plant/route.ts:84-87 | The description value of a rendered line is its entry's value, trimmed, with the fallback. |
| IdentifyPlant.FindLineRendered | app/api/identify-plant/route.ts:57-58 | For a key, the first matching rendered line is the rendering of the first entry whose label matches. |
| IdentifyPlant.ParseRendered | app/api/identify-plant/route.ts:54-88 | For any reply made of `Label: value` lines, each field is the value of the first entry whose label matches its key. |
| IdentifyPlant.LoweredHeadings | app/api/identify-plant/route.ts:58-83 | The canonical headings, lower-cased and followed by a colon, are the six keys. |
| IdentifyPlant.HeadingKeys | app/api/identify-plant/route.ts:58-83 | Which keys each heading ends with. "scientific name:" also ends with "name:". No heading matches the key of a field listed after it. |
| IdentifyPlant.CanonicalMatches | app/api/identify-plant/route.ts:58-83 | In the canonical order, each entry matches its own key and no key of an earlier field. |
| IdentifyPlant.CanonicalFinds | app/api/identify-plant/route.ts:57-83 | In the canonical reply, each key is found on its own line. |
| IdentifyPlant.CanonicalRendered | app/api/identify-plant/route.ts:54 | The canonical reply is its six entries rendered and joined by line breaks. |
| IdentifyPlant.CanonicalReplyParses | app/api/identify-plant/route.ts:54-88 | Each field of a canonical reply is its own line's trimmed value, or that field's default when the value is blank. |
| IdentifyPlant.MissingFamilyFinds | app/api/identify-plant/route.ts:66-70 | With the Family line missing, no key finds it, and every other key finds its own line. |
| IdentifyPlant.MissingFamilyLine | app/api/identify-plant/route.ts:54-88 | A reply without a Family line parses to family "Unknown", and every other field still comes from its line. |
| IdentifyPlant.ScientificNameFirst | app/api/identify-plant/route.ts:56-65 | If the Scientific Name line comes before the Name line, both the name and the scientific name come from it. |
| IdentifyPlant.PresentableParses | app/api/identify-plant/route.ts:56-87 | A value that is non-empty and already trimmed comes back unchanged through the trim and the fallback. |
| IdentifyPlant.CanonicalRoundTrip | app/api/identify-plant/route.ts:54-88 | Writing a record as the canonical reply and parsing it gives back the same record, provided every field is colon-free, single-line, non-empty and trimmed. |
| Middleware.Gate | middleware.ts:18-49 | The result is "go on" or a redirect to /login. Exempt paths go on. Past the exemptions, a missing or empty cookie value is redirected. |
| Middleware.GateVerifies | middleware.ts:36-48 | Past the exemptions, a non-empty token goes on exactly when it verifies. |
| Middleware.NoRedirectLoop | middleware.ts:32-47 | The redirect target is always let through, whatever cookie the next request carries. |
| Middleware.LookalikesGated | middleware.ts:27-34 | Only the exact /login and /register paths are public. "/loginx", "/login/" and "/registered" are redirected. |
| Middleware.BackgroundAlwaysServed | middleware.ts:16-24 | The background image is served with or without a token. |
| Middleware.GateAgreesWithCheckAuth | middleware.ts:36-48 | Past the exemptions, the gate lets a request through exactly when GET /api/check-auth would answer 200 for the same cookie. |
| Middleware.GateOverSession | middleware.ts:36-48 | A login token opens every gated page for exactly one hour after it was issued. The cookie logout leaves is redirected. |
| Middleware.Middleware | middleware.ts:51-53 | Paths outside the matcher go on. Paths inside it get the gate's decision. |
| Middleware.ApiNotGated | middleware.ts:52 | No path starting with "/api" reaches the gate, including "/apiary". |
| Middleware.MatcherExamples | middleware.ts:52 | "/apiary" and "/favicon-ico" (the unescaped dot) skip the gate. "/profile" without a token is redirected. |
| Session.Verify | middleware.ts:5-13 | A token verifies to its decoded claims exactly when it decodes and `now` is before `exp`. Otherwise verification fails. |
| Session.IssuedTokenVerifies | app/api/login/route.ts:17-20 | A login token verifies to the user's id, with `exp` one hour after issue, exactly until that hour ends. |
| Session.EmptyTokenFails | app/api/logout/route.ts:5 | The empty value that logout leaves never verifies. |
| Session.CookieJar.constructor | app/api/logout/route.ts:4 | A new response sets no cookies. |
| Session.CookieJar.Set | app/api/login/route.ts:23-28 | Setting a cookie replaces any earlier cookie of that name and leaves the other names alone. |
| Session.SentBack | app/api/logout/route.ts:8 | Following section 5.3 of RFC 6265, a cookie is sent back, with its own value, exactly while its Max-Age has not run out; without a Max-Age, exactly while its Expires has not passed, or always when it has neither. |
| Session.SessionCookieLifetime | app/api/login/route.ts:17-28 | The session cookie, set with the framework's defaults (path "/" and an Expires date one hour on), is sent back exactly while its token still verifies, and then it names the user. |
| Session.Logout | app/api/logout/route.ts:3-14 | Always 200 `{ success: true }`. The only cookie set is `token`: empty, HTTP-only, Strict, path "/", expired at the epoch. |
| Session.LogoutClearsCookie | app/api/logout/route.ts:5-10 | After logout the browser sends no token at any later time, and the value it was given is empty. The cleared cookie has the session cookie's path, so it replaces it. |
| Session.CheckAuth | app/api/check-auth/route.ts:5-20 | The status is 200 or 401, and the body's `isAuthenticated` is 200's. It is 200 exactly when a cookie is present and its value verifies. |
| Session.CheckAuthAfterLogin | app/api/check-auth/route.ts:13-16 | A login token is authenticated for exactly one hour. |
| Session.CheckAuthAfterLogout | app/api/check-auth/route.ts:17-18 | The cookie that logout leaves is never authenticated. |
| Otp.DigitChar | app/api/send-otp/route.ts:7 | Each digit below 10 prints as a decimal digit character. |
| Otp.DigitRoundTrip | app/api/send-otp/route.ts:7 | Reading a printed digit gives back the digit. |
| Otp.DecimalString | app/api/send-otp/route.ts:7 | Printing a number gives at least one character. Every character is a digit, with no leading zero for a positive number. |
| Otp.DecimalRoundTrip | app/api/send-otp/route.ts:7 | Reading a printed number gives it back. |
| Otp.DecimalLength | app/api/send-otp/route.ts:7 | A number between 10^(k-1) and 10^k prints as k characters. |
| Otp.GenerateOtp | app/api/send-otp/route.ts:6-8 | A code is six decimal digits with no leading zero, and its value is 100000 plus the draw, so it lies in [100000, 1000000). |
| Otp.GenerateOtpInjective | app/api/forgot-password/route.ts:7-9 | Different draws give different codes. |
| Tables.WithoutEmail | app/api/register/route.ts:69 | Deleting by address removes every row for that address and keeps every other row. |
| Tables.WithoutEmailAppend | app/api/register/route.ts:69 | The delete keeps the remaining rows in their order: a row appended last is still last, or is gone when it has the address. |
| Tables.LiveAfterInsert | app/api/register/route.ts:21-26 | A code inserted at time t is accepted for its address exactly until t + 15 minutes (`now < expiresAt`). |
| Tables.NoLiveCodeAfterDelete | app/api/register/route.ts:69 | After the delete, no code is accepted for that address, so a code works only once. |
| Tables.DeleteKeepsOtherEmails | app/api/reset-password/route.ts:33-35 | The delete does not change which codes are accepted for any other address. |
| Tables.UserByName | app/api/login/route.ts:10-13 | The row found has the username. None is found exactly when no row has it. |
| Tables.UserById | app/api/profile/route.ts:26-35 | The row found has the id. None is found exactly when no row has it. |
| Tables.SetHashWhere | app/api/reset-password/route.ts:27-30 | The rows the condition selects get the new hash and nothing else changes. The other rows are untouched. |
| Tables.InsertKeepsUnique | app/api/register/route.ts:34-66 | Inserting a user whose username and address are both unused, with the next id, keeps names, addresses and ids unique. |
| Tables.SetHashKeepsUnique | app/api/change-password/route.ts:51-54 | Changing hashes keeps names, addresses and ids unique. |
| Tables.UserByNameUnique | app/api/login/route.ts:13 | With unique usernames, the lookup by a user's name finds exactly that user. |
| Tables.UserByIdUnique | app/api/profile/route.ts:35 | With unique ids, the lookup by a user's id finds exactly that user. |
| Accounts.RegistrationMail | app/api/send-otp/route.ts:33-39 | The registration mail goes to the address, and both its text and its HTML carry the code. |
| Accounts.ResetMail | app/api/forgot-password/route.ts:46-55 | The reset mail goes to the address. It has HTML only, and a template without a placeholder is sent unchanged. |
| Accounts.ResetMailCarriesCode | app/api/forgot-password/route.ts:47 | A template with a `{OTP}` placeholder mails the code. |
| Accounts.ResetMailFillsFirstPlaceholder | app/api/forgot-password/route.ts:47 | Only the first `{OTP}` is filled in. The rest of the template, including any later placeholder, is sent as written. |
| Accounts.GetProfile | app/api/profile/route.ts:14-57 | No cookie: 401 "Not authenticated". A failed verification or a database error: 401 "Invalid token or database error". A verified, online request whose user has no row: 404 "User not found". 200 exactly when the token verifies and the user's row exists, and the 200 body is the profile of the row found by the token's userId. |
| Accounts.ProfileAfterLogin | app/api/profile/route.ts:24-49 | During the session's hour, a logged-in user gets their own profile. |
| Accounts.ProfileIgnoresHashes | app/api/profile/route.ts:26-47 | The profile never exposes the hash, so no password change alters any profile response. |
| Accounts.SetHashLookup | app/api/profile/route.ts:26-35 | The lookup by id finds the same row, apart from its hash, before and after an update of hashes. |
| Accounts.CheckAvailability | app/api/check-availability/route.ts:4-32 | A database error: 500 "Server error". A username or address in use: 400. Otherwise 200 "Username and email are available". |
| Accounts.Authenticate | app/api/login/route.ts:10-15 | A login succeeds only for the row the lookup by username returns, and only when the password matches its hash. It never succeeds for an unknown username. |
| Accounts.AuthenticateUnique | app/api/login/route.ts:13-15 | With unique usernames, a login for a user's name succeeds exactly when the password matches that user's hash. |
| Accounts.LoginResult | app/api/login/route.ts:9-43 | A database error: 500 "Server error", no token. Bad credentials: 401 "Invalid credentials", no token. Otherwise 200 `{ success: true }` with a token for that user's id. |
| Accounts.LoginAfterRegister | app/api/register/route.ts:46-66 | A user who has just registered can log in with the password they registered, and the session names that user. |
| Accounts.LoginAfterNewHash | app/api/reset-password/route.ts:23-30 | After a reset or a change, the user logs in with the new password. |
| Accounts.FailedLoginsAlike | app/api/login/route.ts:31-36 | A wrong password and an unknown username give the same 401 answer. |
| Accounts.Store.constructor | app/api/register/route.ts:50-54 | A new store has empty tables and hands out ids from 1. |
| Accounts.Store.Register | app/api/register/route.ts:5-82 | A database error: 500. A code that is not live: 400 "Invalid or expired OTP". A username or address in use: 400. Otherwise 201: one new user with the next id and the password's hash, all registration codes for the address deleted, and the uniqueness invariant kept. Every failure leaves the store unchanged. |
| Accounts.Store.SendOtp | app/api/send-otp/route.ts:19-52 | Online, the code row expiring in 15 minutes is stored before the mail is sent, so a failed send (500) still stores it. Offline: 500 and nothing stored. Any address gets a code. |
| Accounts.Store.ForgotPassword | app/api/forgot-password/route.ts:20-65 | An unknown address: 404 "Email not found", nothing stored. Otherwise the reset code is stored first. A failed template read or a failed send then answers 500. A success answers 200. |
| Accounts.Store.ResetPassword | app/api/reset-password/route.ts:5-45 | A code that is not live: 400, nothing changed. Otherwise every user with that address gets the new hash, every reset code for it is deleted, and the answer is 200, even when no user has the address. |
| Accounts.Store.ChangePassword | app/api/change-password/route.ts:7-64 | No cookie: 401. A failed verification or a database error: 500. No user: 404. A wrong current password: 400. Otherwise only that user's hash changes, and the answer is 200. |
| Accounts.Store.Login | app/api/login/route.ts:6-44 | The response is `LoginResult`. On success the jar holds exactly the session cookie (HTTP-only, Strict, Max-Age 3600, Expires one hour on, path "/", Secure in production). On failure it holds none. |
| Accounts.ChangeTouchesOneUser | app/api/change-password/route.ts:51-54 | With unique ids, the update by id changes only that user's hash and leaves every other row as it was. |
| History.UserIdFromToken | app/api/plant-identifications/route.ts:7-16 | Gives the token's userId exactly when the token verifies, and nothing otherwise. |
| History.Insert | app/api/plant-identifications/route.ts:33 | Inserting keeps a newest-first sequence ordered. It adds exactly one row, and only that row. |
| History.SortNewestFirst | app/api/plant-identifications/route.ts:33 | The result is newest first and a permutation of the input. |
| History.Take | app/api/plant-identifications/route.ts:33 | Gives the first n rows, or all of them when there are fewer. |
| History.Query | app/api/plant-identifications/route.ts:32-35 | At most ten rows, newest first. |
| History.QueryOwnRows | app/api/plant-identifications/route.ts:33 | Every returned row is a row of the table that belongs to the user. |
| History.CutNewestFirst | app/api/plant-identifications/route.ts:33 | After the limit cuts a newest-first list, no row cut off is newer than a row kept. |
| History.QueryKeepsNewest | app/api/plant-identifications/route.ts:33 | The result is a sub-multiset of the user's rows of size min(10, count), and all of them when there are at most ten. No row left out is newer than a row returned. |
| History.QueryEmpty | app/api/plant-identifications/route.ts:37 | The query is empty exactly when the user has no rows. |
| History.ProjectAll | app/api/plant-identifications/route.ts:32-44 | Each row is reduced to id, plant name, scientific name and identification time, in order. |
| History.Get | app/api/plant-identifications/route.ts:18-52 | No cookie, a failed verification or a userId of 0: 401. 500 exactly when the user is known and the query throws, with the error's message as details. The 200 answer is the user's non-empty query result. For a known user and a working query, the answer is 200 or 404, and 404 exactly when the query result is empty. |
| History.GetAfterLogin | app/api/plant-identifications/route.ts:27-44 | A logged-in user gets 200 or 404, and 404 exactly when the user has no identifications. |
| Dashboard.KeepLast | app/profile/page.tsx:97 | The last six rows, in their order, or all of them when there are fewer. |
| Dashboard.Clean | app/profile/page.tsx:99-103 | A present name with double asterisks removed and then trimmed gives that text when it is not empty. A missing name, or one that becomes empty, gives the fallback. Any result other than the fallback is non-empty, trimmed and free of double asterisks. |
| Dashboard.CleanIdempotent | app/profile/page.tsx:131-136 | Cleaning a cleaned name again changes nothing. |
| Dashboard.DefaultsAreClean | app/profile/page.tsx:99-103 | "Unknown Plant" and "Scientific name not available" are non-empty, trimmed and asterisk-free. |
| Dashboard.CleanWord | app/profile/page.tsx:99-103 | A non-empty, trimmed and asterisk-free word is a fallback that cleaning leaves alone. |
| Dashboard.Received | app/profile/page.tsx:92-106 | After an ok response, the page stores the cleaned forms of the last six rows, in order. |
| Dashboard.EntryFields | app/profile/page.tsx:98-104 | A stored row keeps its id. Its names are non-empty with no double asterisk. Missing values become "Unknown Plant" and "Date not available". |
| Dashboard.ChartNameOfStored | app/profile/page.tsx:131-136 | On stored entries, the chart's repeated cleaning gives back the stored name. |
| Dashboard.Dedup | app/profile/page.tsx:130-137 | Building a Set and turning it back into an array gives distinct values: every input value, and nothing else. |
| Dashboard.DedupPrefix | app/profile/page.tsx:130-137 | Values keep the order of their first occurrence: the labels of a prefix are a prefix of the labels. |
| Dashboard.ChartNames | app/profile/page.tsx:132-135 | One cleaned name per entry, in order. |
| Dashboard.ChartData | app/profile/page.tsx:141-155 | One count per label: the number of entries whose cleaned name is the label. |
| Dashboard.SumOfCounts | app/profile/page.tsx:141-155 | Over distinct labels, the counts add up to the number of entries carrying any of them. |
| Dashboard.FilterNone | app/profile/page.tsx:150-154 | Filtering with a predicate no element meets gives nothing. |
| Dashboard.ChartCounts | app/profile/page.tsx:129-161 | The chart has one distinct label per name and one count per label. Every entry's name is a label, every count is at least 1, and the counts add up to the number of entries shown. |
| Dashboard.LabelsCover | app/profile/page.tsx:130-137 | Every entry's cleaned name is among the labels. |
| Dashboard.LabelCounted | app/profile/page.tsx:141-155 | Every label is carried by some entry, so its count is at least 1. |
| Dashboard.LabelsOfReceived | app/profile/page.tsx:96-137 | For the stored entries, the labels are the distinct stored names, in first-occurrence order. |
| Dashboard.AfterHistoryFetch | app/profile/page.tsx:90-113 | An ok response replaces the list with the received entries. A non-ok response or a throw leaves the list as it was. |
| Dashboard.AfterProfileFetch | app/profile/page.tsx:73-88 | An ok response shows its profile. Any other response navigates to /login. A throw changes nothing. |
| Text.Trim | app/api/identify-plant/route.ts:54-60 | The result is the input with exactly its leading and its trailing whitespace removed: a slice whose surroundings are all whitespace. It is empty exactly for an all-whitespace string, and otherwise starts and ends with a non-whitespace character. |
| Text.TrimUnique | app/api/identify-plant/route.ts:54-60 | Any slice with whitespace around it and non-whitespace at both of its ends is the trimmed string. |
| Text.LeadingSpacesUnique | app/api/identify-plant/route.ts:59-60 | The leading whitespace stops exactly at the first non-whitespace character. |
| Text.TrimEnd | app/api/identify-plant/route.ts:60 | A prefix of the input followed only by whitespace. It is empty exactly when the input is all whitespace, and otherwise ends in a non-whitespace character. |
| Text.TrimEndUnique | app/api/identify-plant/route.ts:60 | Any prefix followed only by whitespace and ending in a non-whitespace character, or empty, is the end-trimmed string. |
| Text.OrElse | app/api/identify-plant/route.ts:60 | A non-empty value is kept. An empty value gives the fallback. |
| Text.OrElseIdempotent | app/profile/page.tsx:100 | Applying the fallback twice is applying it once. |
| Text.TrimIdempotent | app/profile/page.tsx:100 | Trimming twice is trimming once. |
| Text.TrimAfterSpaces | app/api/identify-plant/route.ts:59-60 | Leading whitespace does not change the trimmed value. |
| Text.ToLower | app/api/identify-plant/route.ts:58 | Lower-casing works character by character and keeps the length. |
| Text.Split | app/api/identify-plant/route.ts:54-59 | Splitting gives at least one piece, and no piece contains the separator. |
| Text.JoinSplit | app/api/identify-plant/route.ts:84-86 | Joining the pieces of a split gives back the string. |
| Text.SplitJoin | app/api/identify-plant/route.ts:54 | Splitting a join of separator-free pieces gives back the pieces. |
| Text.ReplaceFirst | app/api/forgot-password/route.ts:47 | A string without the pattern is left unchanged. The replacement is inserted literally, which is what JavaScript does for a replacement without `$`, such as the digit code. |
| Text.ReplaceFirstAt | app/api/forgot-password/route.ts:47 | Only the first occurrence is replaced. |
| Text.RemoveDoubleStars | app/profile/page.tsx:100 | The result has no double asterisk and is no longer than the input. Only asterisks are removed: the other characters stay, in their order. |
| Text.RemoveDoubleStarsRun | app/profile/page.tsx:100 | A run of k asterisks at the front keeps k mod 2 of them, and the rest of the string is cleaned on its own. |
| Text.RemoveDoubleStarsPair | app/profile/page.tsx:100 | A `**` after asterisk-free text is dropped, and the text before it is kept as it is. |
| Text.RemoveDoubleStarsPrefix | app/profile/page.tsx:100 | A prefix without `**` that does not end in an asterisk is kept as it is, and the rest is cleaned on its own, so a lone asterisk before a later `**` stays. |
| Text.RemoveDoubleStarsNone | app/profile/page.tsx:100 | A string without a double asterisk is left unchanged. |
| Arrays.FindIndex | app/api/identify-plant/route.ts:58 | The index of the first element that meets the predicate. None exactly when no element meets it. |
| Arrays.Filter | app/api/identify-plant/route.ts:54 | Keeps exactly the elements that meet the predicate. |
| Arrays.FilterConcat | app/api/identify-plant/route.ts:54 | Filtering a concatenation is concatenating the filtered parts, so the order of the elements is kept. |
| Arrays.FilterSingleton | app/api/identify-plant/route.ts:54 | One element is kept exactly when it meets the predicate. |
| Arrays.Count | app/profile/page.tsx:150-155 | The count is zero exactly when no element meets the predicate, and never exceeds the length. |

## Left out

- Cryptography is abstract. bcrypt and jose are modelled only by the `Session.Sound` properties and by expiry at `exp`, so hash strength, salt randomness, HS256 signing and the server secret are not modelled.
- The database is modelled as rows in table order, not SQL text. Several things are not modelled:
  - concurrent requests;
  - a query that fails halfway through a handler (for example after the insert of POST /api/register but before its delete);
  - unique constraints in the schema, which is not part of this model. Uniqueness is the invariant that the handlers' own checks keep.
- History.SortNewestFirst: ties in `identified_at` keep table order. The SQL leaves their order unspecified, so the model's order for equal times is one of the orders the database may return. `History.QueryKeepsNewest` states what holds for every order.
- Request bodies that are not valid JSON, and fields of the wrong type, are not modelled. Fields are given as well-typed parameters.
- Outside systems are parameters: the Together AI call, the nodemailer transport, the file system read of the mail template, `Math.random`, the clock and `process.env`. The mail is returned as a value, and the model only states whether sending succeeded.
- The image upload and its base64 encoding are not modelled. The form only says whether an image is present.
- Otp.GenerateOtp is given the integer draw `floor(Math.random() * 900000)`, not the floating-point computation.
- Text.ReplaceFirst inserts the replacement literally. The `$&`, `$$`, `` $` `` and `$'` patterns that JavaScript expands in a replacement string are not modelled; the only replacement used here is the digit code, which has no `$`.
- Text.ToLower lower-cases ASCII letters only; JavaScript's full Unicode case mapping is not modelled.
- Text.Trim strips the ECMAScript whitespace and line-terminator characters. The model is over Unicode scalar values, not UTF-16 code units.
- Accounts.GetProfile: `joinDate` and the text columns are passed through as stored. The JSON encoding of dates is not modelled.
- History.Get: the `details` field carries the error's message as a given string. What the driver puts in it is not modelled.
- Dashboard: the React state, rendering, the chart library, loading flags and navigation side effects are not modelled. The profile page is modelled only by its data steps.
- app/api/generate-care-tips/route.ts and the other pages are not part of this model.
- The redirect in middleware.ts builds an absolute URL from the request URL. The model keeps only the path.
