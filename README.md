# simple-analytics server core in Dafny

A model of the state-carrying core of `lib/server.js` of simple-analytics, a
small page-visit analytics server:

- **Persistence** (`Persistence.dfy`): the write-coalescing `saveData`
  protocol. Its two flags `writing` and `needsRewrite` keep at most one file
  write in flight. Saves that arrive during a write collapse into a single
  follow-up write, which is issued only when the write succeeds. The protocol
  is given twice. Pure step functions come with lemmas over whole traces of
  events. The class `Saver` updates the flags in place and keeps a ghost log
  of the snapshots it wrote.
- **Credentials** (`Credentials.dfy`): splitting the 192-byte credential file
  into salt, user-name key and password key; `compareBuffers`; and the
  `/auth` check. The key derivation (pbkdf2) is a function parameter `kdf`.
- **Sessions** (`Sessions.dfy`): the `authTokens` session set as a class.
  Login adds a token, logout removes it, `isValidUser` looks it up. A ghost
  history of logins and logouts explains the set.
- **Store** (`Store.dfy`): the posts object. It models id normalisation,
  referrer validation, recording a visit (including lazy creation of a post
  and the 256-character limit on new ids), and the daily purge that keeps 30
  days of visits. It also fills in missing lifetime counters. The class
  `VisitStore` saves through `Saver` after every change.
- **Tables** (`Tables.dfy`): `sortTable` and the three tables of the
  analytics page (visits per post in a window, referrers in a window, and
  all-time counts per post). Each table is followed by a `Total` row. The
  row-building loops are methods proved against the row sets they must
  produce.
- `Wrappers.dfy` holds `Option` and `Result`. `JsObjects.dfy` holds the
  names a lookup on a plain JavaScript object finds through
  `Object.prototype`.

Four behaviours of the code that the model keeps as they are:

- **Post ids.** Only a new id of 256 or more characters is refused. There is
  no pattern check, and the empty id is accepted (lib/server.js:417-429). An
  id that already names a post is not checked again.
- **Comparison timing.** `compareBuffers` returns at the first differing
  byte, so how long it takes depends on the data (lib/server.js:81-91).
  `Credentials.CompareBuffers` has the same early exit.
- **Referrer grouping.** The referrers table groups visits by referrer
  string across all posts. Each row is one distinct referrer with its number
  of visits (lib/server.js:330-362).
- **Empty password.** The credential tool accepts an empty password: only the
  user name has a pattern, and the two password entries need only be equal
  (lib/cli.js:44-71). The file it writes is well formed, but the server
  refuses every login with an empty password (lib/server.js:229).

## Model

| member | source | states |
|---|---|---|
| Persistence.OnSave | lib/server.js:52-57 | After a save the file is being written. A write starts iff none was in flight. A rewrite is marked as needed iff a write was in flight or one was already marked; a save on an idle protocol marks none. |
| Persistence.OnComplete | lib/server.js:58-66 | A completed write clears both flags. It starts exactly one follow-up write iff the write succeeded and a rewrite was pending. A failure drops the pending rewrite. |
| Persistence.Step | lib/server.js:52-66 | One save or completion starts at most one write, and a started write leaves the protocol writing. A completion with no write in flight changes nothing. |
| Persistence.Run | lib/server.js:52-66 | A sequence of events starts at most one write per event. |
| Persistence.StepKeepsOneInFlight | lib/server.js:50-66 | Any single save or completion keeps "one write in flight iff `writing`, and `needsRewrite` only while writing". It starts at most one write. |
| Persistence.AtMostOneWriteInFlight | lib/server.js:50-66 | Over any sequence of saves and completions there are never two writes in flight. |
| Persistence.SavesWhileWriting | lib/server.js:53-56 | Any number of saves during a write start no write. They leave exactly the needs-rewrite mark. |
| Persistence.BurstCoalesces | lib/server.js:52-66 | A burst of saves during a write, then that write's completion, causes at most one more write. That write happens iff the write succeeded and a rewrite was pending. |
| Persistence.Saver.constructor | lib/server.js:50-51 | The saver starts idle, with nothing written. |
| Persistence.Saver.Save | lib/server.js:52-58 | The flags move as `OnSave` says. A snapshot is written iff no write was in flight, and then it is appended to the log of written snapshots. |
| Persistence.Saver.Complete | lib/server.js:58-66 | The flags move as `OnComplete` says. A follow-up write serialises the store as it is at completion time. |
| Credentials.ParseAuthFile | lib/server.js:114-127 | Parsing succeeds iff the file is exactly 192 bytes. The three fields are then 64 bytes each, and their concatenation is the file. |
| Credentials.AuthFileRoundTrip | lib/server.js:117-125 | Reading back the bytes of a well-formed record yields that record. |
| Credentials.CreatedCredentialsAccepted | lib/cli.js:44-81 | The file written for a (non-empty) user name and any password parses back intact. That user name and password are then accepted iff the password is non-empty. |
| Credentials.CompareBuffers | lib/server.js:81-91 | Returns true iff the two byte sequences are equal. |
| Credentials.CheckCredentials | lib/server.js:226-235 | Accepts iff both fields are non-empty and the derived keys of both equal the stored keys. |
| Credentials.OtherSecretsRejected | lib/server.js:229-235 | A password (or user name) whose derived key differs from the right one is refused, even with the other field right. |
| Sessions.LiveTokensMeaning | lib/server.js:215-241 | A token is live iff some login issued it and no later logout removed it. |
| Sessions.IsValidUserAsWritten | lib/server.js:157-160 | The lookup as written accepts every token the intended check accepts. Any token it accepts beyond those is a member name inherited from `Object.prototype`. |
| Sessions.InheritedNamePassesAsWritten | lib/server.js:157-160 | The cookie token `constructor`, never issued, passes the check as written and fails the intended check. |
| Sessions.Auth.constructor | lib/server.js:120-125 | The token set starts empty. |
| Sessions.Auth.Login | lib/server.js:225-246 | Succeeds iff the credentials are accepted. Only then is the token added to the set and recorded in the history. |
| Sessions.Auth.Logout | lib/server.js:215-222 | Removes the cookie's token; without a token nothing changes. The set still equals the live tokens of the history. |
| Sessions.Auth.IsLoggedIn | lib/server.js:157-160 | True iff the token is non-empty and live. A logged-in token was issued by some login. |
| Store.LifetimeCount | lib/server.js:177-179 | The lifetime count is the stored counter when there is one, and otherwise the number of retained visits. |
| Store.NormalizeId | lib/server.js:409-415 | The id is the decoded segment with at most one leading and one trailing `/` removed, and otherwise unchanged. |
| Store.ValidateReferrer | lib/server.js:432-435 | The stored referrer is the given one or empty. It is empty iff the given one is empty or has no host name. |
| Store.Visited | lib/server.js:438-449 | The lifetime counter is filled in if missing and incremented. The visit is appended after the earlier visits. |
| Store.AddVisit | lib/server.js:409-449 | Rejected iff the id is new and has 256 or more characters. Fails (a thrown TypeError) iff the id names an inherited member. Either way the store is unchanged. Otherwise the post exists afterwards, the visit is appended, the counter is incremented, and no other post changes. |
| Store.AddVisitKeepsWellCounted | lib/server.js:438-441 | Recording a visit keeps every lifetime counter at least the number of retained visits. |
| Store.FirstKept | lib/server.js:181-184 | The scan stops at the first visit not older than the cutoff. All visits before it are older. |
| Store.ScanCutoff | lib/server.js:180-184 | The purge's scan loop returns exactly that index. |
| Store.TrimPost | lib/server.js:176-185 | The purge keeps a suffix of the visits. Everything dropped is older than the cutoff, and the first kept visit is not. The counter is kept, or filled in from the visits before trimming. |
| Store.PurgeAll | lib/server.js:169-186 | The purge trims every post and removes none. |
| Store.FirstKeptLater | lib/server.js:181-185 | Scanning the kept suffix with a later cutoff ends where one scan with that cutoff ends. |
| Store.TrimTwice | lib/server.js:176-185 | Trimming a post twice, with the later cutoff second, equals trimming once with the later one. |
| Store.PurgeTwice | lib/server.js:169-188 | Purging at one day and again at a later day equals purging once at the later day. |
| Store.PurgeIdempotent | lib/server.js:169-188 | Purging twice with the same cutoff equals purging once. |
| Store.PurgeFillsCounters | lib/server.js:177-179 | After a purge every post has a lifetime counter, and it covers the retained visits. |
| Store.VisitStore.constructor | lib/server.js:131-143 | Without a data file the store starts empty and is saved at once. Otherwise it is the loaded posts, with nothing written. |
| Store.VisitStore.RecordVisit | lib/server.js:406-453 | The outcome and the new posts are those of `AddVisit` on the normalised id and validated referrer. A recorded visit saves the store as `OnSave` says; other outcomes save nothing. |
| Store.VisitStore.Purge | lib/server.js:169-188 | The new posts are `PurgeAll` at now minus 30 days, computed by the in-place loop. Then the store is saved. |
| Store.VisitStore.WriteFinished | lib/server.js:58-66 | A write completion moves the flags as `OnComplete` says. A follow-up write saves the current posts. |
| Tables.Insert | lib/server.js:287-297 | Inserting a row into a sorted table keeps it sorted. It adds exactly that row, and its count to the sum. |
| Tables.SortTable | lib/server.js:287-297 | The result is sorted by non-increasing count, is a permutation of the input, and has the same sum. |
| Tables.AppendTotal | lib/server.js:322-325 | The table is the rows followed by `Total` with the sum of their counts. |
| Tables.Render | lib/server.js:320-325 | Sorting rows and appending the total yields a table for the expected row set. |
| Tables.TableRows | lib/server.js:320-325 | A table body lists each expected row exactly once and nothing else. |
| Tables.CountInWindow | lib/server.js:306-310 | A post's count in a window is at most its number of visits. |
| Tables.CountVisits | lib/server.js:304-310 | The counting loop returns the number of visits with `start <= timestamp < end`. |
| Tables.CalculateVisitsTable | lib/server.js:299-328 | The table has one row per post with a visit in the window, holding that count. The rows are sorted and end with their total. |
| Tables.VisitsTableMeaning | lib/server.js:299-328 | Every row is a post with a positive in-window count. Every post with an in-window visit has a row, and no post has two. The total is the sum. |
| Tables.RecordedVisitCounted | lib/server.js:441-449 | A recorded visit adds one to its post's count in exactly the windows containing its timestamp. |
| Tables.CalculateAllTimeTable | lib/server.js:365-380 | The table is `None` iff some post lacks a counter (its total would be NaN). Otherwise it has one row per post with its lifetime count, sorted, then the total. |
| Tables.AllTimeTableMeaning | lib/server.js:365-380 | Every post has exactly one row with its lifetime count, zeros included. The total is the sum. |
| Tables.PostReferrers | lib/server.js:335-343 | A post contributes at most one referrer occurrence per visit. |
| Tables.ReferrerBagRemove | lib/server.js:332-345 | The referrer multiset over all posts does not depend on the order in which posts are visited. |
| Tables.CountReferrers | lib/server.js:335-343 | The inner loop turns the count object into the multiplicities of the in-window, non-empty referrers counted so far. |
| Tables.ReferrerTableRows | lib/server.js:346-352 | The rows are one per counted referrer, with its multiplicity. |
| Tables.CalculateReferrersTable | lib/server.js:330-362 | The table has one row per distinct non-empty referrer in the window, over all posts, with its number of visits. The rows are sorted and end with their total. |
| Tables.ReferrersTableMeaning | lib/server.js:330-362 | Every row is a distinct referrer with its multiplicity, and every referrer has a row. The total is the number of in-window visits with a non-empty referrer. |
| Tables.TotalOfRows | lib/server.js:356-359 | The counts of the referrer rows add up to the number of counted visits. |

## Left out

- The HTTP layer is not modelled: routing, the static files, CORS headers, cookies, response codes, templates and redirects. Also left out are the login page, the client IP from `x-forwarded-for`, and the logger.
- File I/O and JSON are not modelled. Reading the credential file and the data file are parameters (`ParseAuthFile` on the bytes, `VisitStore` on the loaded posts). A write and its completion are calls of `Saver.Save` and `Saver.Complete`.
- The random bytes of a session token are a parameter of `Auth.Login`, as a non-empty string. The random salt of the credential tool is a parameter of `CreatedCredentialsAccepted`.
- pbkdf2 is the function parameter `kdf`; its iteration count (1000) is not modelled.
- Timers and the clock are left out: `setInterval` and `Date.now` become the `now` parameter of `Purge` and `RecordVisit`, and the table window bounds are parameters. How the page computes `startOfToday`, yesterday and the weeks from the clock is left out.
- The daily histogram of the analytics page (lib/server.js:259-285) is left out. It depends on the local-time calendar of `Date`.
- `decodeURIComponent` and its exception on malformed escapes are left out. `RecordVisit` takes the already decoded id.
- `url.parse(...).hostname` is the predicate parameter `hasHost`.
- Lengths are counts of Dafny characters, not of JavaScript UTF-16 code units.
- Store.AddVisit: the Failed outcome stands for the thrown TypeError of an id naming an inherited member. The error response itself is not modelled.
- Tables.SortTable: `Array.prototype.sort` leaves the order of rows with equal counts to the engine. This model fixes one order, and no contract depends on it.
- Tables.CalculateVisitsTable: the order in which keys of JavaScript objects are enumerated is not modelled; each loop takes the remaining keys in an arbitrary order. Only ties between rows of equal count depend on it.
- Tables.CountReferrers: the count object is treated as a plain map. A referrer naming an inherited member of `Object.prototype` would behave differently there, but a referrer is stored only when it has a host name, which such names lack.
- Persistence.OnComplete: the failure message announces a retry in 60 seconds, but the code schedules none. The model drops the pending rewrite, as the code does.
- `lib/cli.js` is not part of this model beyond the credential file it writes (lib/cli.js:74-81).

## Findings

| source | as written | input that shows it | evidently intended | confidence | as-written member | corrected member |
|---|---|---|---|---|---|---|
| lib/server.js:157-160 | `isValidUser` accepts a cookie token when `auth.authTokens[token]` is truthy. The token object is a plain `{}`, so the members it inherits from `Object.prototype` count as issued tokens. | Cookie `analyticsAuthToken=constructor` with no login ever made. `authTokens["constructor"]` is the `Object` function, so the analytics page is served. | Only tokens issued by a successful login and not logged out are accepted. | high, not executed | Sessions.InheritedNamePassesAsWritten | Sessions.Auth.IsLoggedIn |
