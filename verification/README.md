# Verified models of the server's stateful cores

This project models the parts of the server that change state over time, and proves what they keep over
every run. `dafny verify dfyconfig.toml` checks all of it.

| file | what it models |
|---|---|
| `Calendar.dfy`, `KstDate.dfy`, `Decimal.dfy` | days, years and `Date.UTC` as in section 21.4.1 of ECMA-262; the Korean attendance dates; printed times |
| `Attendance.dfy` | check-in with streak and rank, the statistics batch job, the re-ranking seeder |
| `SlugText.dfy`, `SlugMigration.dfy` | the slug of a site name; the two-phase back-fill of unique slugs |
| `ApiThrottle.dfy` | the per-address request limiter |
| `PhoneUtil.dfy`, `OtpLifecycle.dfy` | one-time passwords, tokens, registration and change of phone, with the request limiter |
| `TokenLifecycle.dfy` | login, refresh, logout, reset and change of passwords, for admins and users alike; deactivation and deletion of users |
| `LoginReward.dfy` | the reward for the first login of a Korean day |
| `IpSync.dfy` | expiring address sets in Redis and their transfer to the database |
| `ContentSync.dfy` | the commands that reconcile `user_posts` and `user_comments` with their sources |
| `HasChild.dfy` | the cached `has_child` flag and its background jobs |
| `Common.dfy` | optional values and lists without duplicates |

Where the code updates tables, a class holds them, with one method per handler that has the handler's own
branches and loops. The method is proved against a function or relation on abstract states (`After`,
`Step`, `Handle`, ...), and the lemmas prove what the code is for about that function or relation: over single
steps, then over all runs.

## Assumptions

- A use case is one atomic step with one clock reading. The code checks some conditions before its
  transaction starts; other requests do not come in between.
- Over a run the clock never goes back. Where a lemma does not need that, it does not ask for it.
- Random codes and ids, and the verdicts of bcrypt and JWT verification, are parameters. Token ids and new row
  keys are unused. A signed refresh token names the account that its pair was generated for.
- `users` keeps deleted users, and its unique column refuses their addresses as well.
- Each statement of the address sync has its own time; a sync ends before the next one begins.
- A query may answer in any order its ORDER BY allows; ties are not broken.
- `save` writes `updatedAt` if something changed but `updatedAt` did not; `softDelete` and `restore` write it
  as well. `user_posts` and `user_comments` have at most one row per key, and a source names an item once.
- An `update` whose condition has `revokedAt: null` reaches the rows where it is null (`IS NULL`).
- "7 days" means 7 times 24 hours: the server's zone has no daylight saving time.
- A `has_child` job reads and writes without another step in between.

## Where the code differs from its own description

- `total_attendance_days` is described as the number of attendance days up to the date
  (src/migrations/1765955273683-create-attendance-system.ts:136). It is computed from yesterday's row only, so
  it is the current streak. `TotalIsAllDaysIffNoneMissed` says when the two agree, and
  `TotalForgetsMissedDays` gives a run.
- The batch job ranks by arrival, the check-in by total, streak and time. `ArrivalRanksAgree` says when the
  two agree, `ArrivalRanksMayBeWrong` gives a run; the next check-in of the day restores the second order. The
  column is described as "based on check-in time" (src/migrations/1765955273683-create-attendance-system.ts:155):
  by that the rank of the check-in is the deviating one.
- `getDateInKST` is a day too late or more for dates in the years 0 to 99, which `Date.UTC` moves to the
  twentieth century: `GetDateInKst` has the exact condition, `TwoDigitYearFails` an instant. No reading of the
  server's clock is affected.
- `formatDateToKST` promises a year of four digits but does not pad it: `FormatHasFourDigitYearIff` says for which
  days it has four, `OtherYearsFail` gives two others. In the last nine hours of the ECMAScript time range it prints
  NaN (`FormatFailsAtTheEnd`).
- A token is called one-time, and a registration takes it away. A change of phone
  (src/modules/user/application/handlers/update-profile.use-case.ts:166-172) leaves it in the verified record, where
  it works again for the same user: `VerifiedRecordsAreTraced` says which verified records hold a token,
  `PhoneChangeKeepsItsToken` gives a run.
- A change of phone is to delete the old phone's record, but looks it up among deleted ones too, so a phone that was
  left twice can stay taken: `OldPhoneIsFreedIff`, `OldPhoneMayStayBlocked`. Clearing the phone does not touch its
  record at all: `ClearedPhoneIsAbandoned`. A record left in either way takes its phone for good:
  `AbandonedPhoneIsTaken`.
- The limit on codes is kept per record. A phone whose record was deleted gets a new record and a new count:
  `PhoneBound`, `PhoneMayExceedTheLimit`.
- `retryAfter` seconds, and the minutes reported by the code limiter, are enough if exceeded. Waiting exactly
  that long is not always enough: `RetryAfterIsHonest`, `ReportedWaitIsEnough`, and a run of each kind,
  `ExactWaitMayBeRefused`.
- The address sync is described as running every five minutes and runs every five seconds. "The most recent
  address" is the one that reached the table last, not that of the last request: `LastIpIsLastRequestIff`, with a
  run in `LastIpMayBeStale`.
- Deleting a post comment deletes its replies but updates only the flag of its parent. The flags of the
  deleted comments stay as they were: `FlagIsExact`, `DeletionLeavesFlagWrongIff` and, on a run,
  `DeletedPostCommentKeepsFlag`.
- The orphan pass of the comment sync compares ids without the comment type, so it does not see a row filed
  under the wrong type: `MirrorIsExactIffNothingMisfiled`, `MisfiledRowSurvives`.
- One run of a sync copies the dates of an item only under a condition, `DatesRightAfterOneRunIff`; two runs do not
  always settle them, three do: `RunsSettle`, `TwoRunsMayNotSettle`.

## Model

| member | source | states |
|---|---|---|
| `Calendar.YearLength` | src/shared/utils/attendance-date.util.ts:35-38 | The day-number formula of ECMA-262 agrees with the leap-year rule: consecutive Januaries are 365 or 366 days apart. |
| `Calendar.MonthLengths` | src/shared/utils/attendance-date.util.ts:35-42 | The lengths of the twelve months, and day 0 in 1970. |
| `Calendar.TwentiethCentury` | src/shared/utils/attendance-date.util.ts:42-42 | `Date.UTC` moves exactly the years 0 to 99, by 1900. |
| `Calendar.YearOfDay` | src/shared/utils/attendance-date.util.ts:20-20 | The year found for a day is the one whose January 1st is on or before it and whose successor starts after it. |
| `Calendar.MonthOfDay` | src/shared/utils/attendance-date.util.ts:21-21 | The month found, leap years included, is the one whose day range contains the day. |
| `Calendar.FieldsRebuildDay` | src/shared/utils/attendance-date.util.ts:42-42 | Year, month and date of a day, put together again, are that day, across every month, year and leap boundary. |
| `Calendar.DayKeepsFields` | src/shared/utils/attendance-date.util.ts:42-42 | A real calendar date, made into a day number, gives its three fields back: with FieldsRebuildDay, a bijection. |
| `Calendar.ReencodeIsExact` | src/shared/utils/attendance-date.util.ts:42-42 | `Date.UTC` gives the day back if and only if its year is outside 0 to 99. |
| `Decimal.ValueOfText` | src/migrations/1767800000000-add-slug-to-sites.ts:57-57 | Reading the decimal form of a number gives the number. |
| `Decimal.ValueOfIntText` | src/shared/utils/attendance-date.util.ts:95-102 | The same with a minus sign, for the printed year. |
| `Decimal.TextIsInjective` | src/migrations/1767800000000-add-slug-to-sites.ts:57-57 | Two counters are never printed alike. |
| `Decimal.TextLength` | src/migrations/1767800000000-add-slug-to-sites.ts:57-58 | A number below 10^k has at most k digits. |
| `Decimal.ValueOfPad2` | src/shared/utils/attendance-date.util.ts:96-100 | Two-digit padding prints two characters that read back as the number. |
| `KstDate.NextDayIsExact` | src/shared/utils/attendance-date.util.ts:62-68 | The late branch, two `Date.UTC` calls with an overflowing date, gives the next day exactly when neither of the two days lies in the years 0 to 99. |
| `KstDate.GetDateInKst` | src/shared/utils/attendance-date.util.ts:50-69 | For every valid instant the result is floor((t + 9h)/24h) in days, at midnight UTC, if and only if neither the UTC nor the Korean date lies in the years 0 to 99. |
| `KstDate.GetTodayInKst` | src/shared/utils/attendance-date.util.ts:16-43 | The same for the clock reading. |
| `KstDate.ServerClock` | src/shared/utils/attendance-date.util.ts:16-43 | No time from 1970 on meets the exception. |
| `KstDate.GetYesterdayInKst` | src/shared/utils/attendance-date.util.ts:75-80 | Exactly the day before, across month and year starts, or the invalid Date before the first representable day, under the same if-and-only-if condition. |
| `KstDate.FormatReadsBack` | src/shared/utils/attendance-date.util.ts:91-103 | The printed Korean time, read strictly as a calendar date and a time of day, is the instant truncated to seconds. |
| `KstDate.FormatIsFaithful` | src/shared/utils/attendance-date.util.ts:91-103 | Two instants print alike if and only if they lie in the same second. |
| `KstDate.FormatIsLaidOut` | src/shared/utils/attendance-date.util.ts:82-102 | The year, then two-digit fields separated as documented, and +09:00 at the end. |
| `KstDate.DocumentedTime` | src/shared/utils/attendance-date.util.ts:87-90 | The example of the documentation, character by character. |
| `KstDate.FormatPrintsKoreanDate` | src/shared/utils/attendance-date.util.ts:91-103 | The three printed date fields, read as a calendar date, are the Korean day of the instant. |
| `KstDate.DateInKstIsExact` | src/shared/utils/attendance-date.util.ts:50-69 | The stored date, as a formula, is the Korean day if and only if neither date lies in the years 0 to 99. |
| `KstDate.FormatPrintsAttendanceDate` | src/shared/utils/attendance-date.util.ts:50-103 | The printed date fields are the stored attendance date of the same instant if and only if neither date lies in the years 0 to 99. |
| `KstDate.TwoDigitYearFails` | src/shared/utils/attendance-date.util.ts:62-68 | An instant of the year 50 for which the stored date is not the Korean one, while the printed one is. |
| `KstDate.FormatHasFourDigitYearIff` | src/shared/utils/attendance-date.util.ts:82-102 | The documented form, a year of four digits, is printed if and only if the Korean day lies in -354285 .. 2932896, the years 1000 to 9999. |
| `KstDate.FourDigitDays` | src/shared/utils/attendance-date.util.ts:95-95 | Those day numbers are the days of the years 1000 to 9999. |
| `KstDate.OtherYearsFail` | src/shared/utils/attendance-date.util.ts:95-102 | The day before prints the year 999, the day after the year 10000. |
| `KstDate.FormatFailsAtTheEnd` | src/shared/utils/attendance-date.util.ts:91-103 | No date is printed exactly within nine hours of the end of the time range. |
| `SlugText.GeneratedShape` | src/migrations/1767800000000-add-slug-to-sites.ts:8-28 | Every name, also an empty or symbol-only one, gives 1 to 50 slug characters, no leading hyphen, no double hyphen, and a trailing one only when cut at 50. |
| `SlugText.SlugSpellsName` | src/migrations/1767800000000-add-slug-to-sites.ts:8-28 | Every slug is the beginning, at most 50 characters, of one whose letters and digits are those of the name in order, capitals in lower case, with a hyphen between two exactly where the name has white space or a hyphen between them; a name without any gives "site". |
| `SlugText.SlugsAreFixedPoints` | src/shared/validators/is-slug.validator.ts:16-23 | Generating leaves a string alone if and only if it is already a well-formed slug of at most 50 characters. |
| `SlugMigration.CandidatesDiffer` | src/migrations/1767800000000-add-slug-to-sites.ts:56-59 | Numbered candidates of one base are pairwise different. |
| `SlugMigration.DistinctCandidates` | src/migrations/1767800000000-add-slug-to-sites.ts:41-60 | If candidates 1 to n are all taken, at least n slugs are: the pigeonhole behind termination. |
| `SlugMigration.FirstFreeIsUnique` | src/migrations/1767800000000-add-slug-to-sites.ts:33-61 | There is only one first free candidate. |
| `SlugMigration.FirstFreeFits` | src/migrations/1767800000000-add-slug-to-sites.ts:33-61 | It passes the validator, and has at most 50 characters when fewer than 10^49 - 1 slugs are taken. |
| `SlugMigration.AssignedSlugsAreFresh` | src/migrations/1767800000000-add-slug-to-sites.ts:113-122 | A slug handed out was not taken before and not handed out earlier. |
| `SlugMigration.BasesAreSlugs` | src/migrations/1767800000000-add-slug-to-sites.ts:114-133 | Bases of active and of deleted rows are slugs of at most 50 characters. |
| `SlugMigration.BackFilledSlugFits` | src/migrations/1767800000000-add-slug-to-sites.ts:96-155 | After both phases a row has a non-null slug that passes the validator and, below 10^49 rows, fits the column. |
| `SlugMigration.BackFilledSlugsDiffer` | src/migrations/1767800000000-add-slug-to-sites.ts:157-169 | After both phases two rows never share a slug, although active rows were checked against active rows only. |
| `SlugMigration.BackFillIsSound` | src/migrations/1767800000000-add-slug-to-sites.ts:96-170 | The two together, for every table: the null check cannot fail and the unique index can be built. |
| `SlugMigration.RowSlugIs` | src/migrations/1767800000000-add-slug-to-sites.ts:113-144 | After the migration each row has the slug of its name (for deleted rows marked and cut at 44), or the first numbered variant, cut to 50, that no other row has. |
| `SlugMigration.SitesTable.MakeSlugUnique` | src/migrations/1767800000000-add-slug-to-sites.ts:33-94 | Returns the first free candidate among the other rows after at most |rows| + 1 queries. |
| `SlugMigration.SitesTable.AssignPhase` | src/migrations/1767800000000-add-slug-to-sites.ts:113-122 | Gives each listed row the first free candidate of its base and changes nothing else. |
| `SlugMigration.SitesTable.Up` | src/migrations/1767800000000-add-slug-to-sites.ts:96-170 | From any table the migration gets past its null check and leaves a back-filled table, in whatever order rows are listed. |
| `ApiThrottle.ApiThrottleMiddleware.Use` | src/shared/middleware/api-throttle.middleware.ts:31-114 | Store and answer after a request: window opening, counting, refusal, headers. |
| `ApiThrottle.ApiThrottleMiddleware.CleanUp` | src/shared/middleware/api-throttle.middleware.ts:127-134 | Removes exactly the expired entries. |
| `ApiThrottle.FamiliesOfMethods` | src/shared/middleware/api-throttle.middleware.ts:55-85 | GET is one family; POST, PUT, PATCH and DELETE are the other. |
| `ApiThrottle.SkippedIff` | src/shared/middleware/api-throttle.middleware.ts:119-122 | Exactly the paths beginning in /health, /metrics or /favicon.ico are let through uncounted. |
| `ApiThrottle.FreshWindow` | src/shared/middleware/api-throttle.middleware.ts:44-79 | The first answer of a window: limit, remaining count and reset time of the family. |
| `ApiThrottle.FamiliesAreSeparate` | src/shared/middleware/api-throttle.middleware.ts:55-110 | Within a window a request of one family does not change the answer to the other. |
| `ApiThrottle.CleanUpIs` | src/shared/middleware/api-throttle.middleware.ts:127-134 | Clean-up drops exactly the entries whose reset time has passed. |
| `ApiThrottle.OneWindow` | src/shared/middleware/api-throttle.middleware.ts:53-110 | While one window covers the interval, at most what is left of the limit passes. |
| `ApiThrottle.TwoWindows` | src/shared/middleware/api-throttle.middleware.ts:40-110 | From any state an interval within both windows passes at most the rest of one window and one full limit. |
| `ApiThrottle.IntervalBound` | src/shared/middleware/api-throttle.middleware.ts:40-134 | In every run with a non-decreasing clock, any addresses and clean-ups, at most twice the limit of one address and family passes in any closed interval no longer than the shorter window. |
| `ApiThrottle.BoundIsMet` | src/shared/middleware/api-throttle.middleware.ts:40-110 | The factor two is attained, for every positive limit, in a run from the empty store within two adjacent milliseconds. |
| `ApiThrottle.OwnRun` | src/shared/middleware/api-throttle.middleware.ts:31-134 | From stores that agree on an address, its answers are those of its own requests run alone. |
| `ApiThrottle.AddressesAreIndependent` | src/shared/middleware/api-throttle.middleware.ts:31-134 | Any interleaving with other addresses and clean-ups leaves the answers of an address as if it were alone and never cleaned. |
| `ApiThrottle.NextAnswer` | src/shared/middleware/api-throttle.middleware.ts:31-134 | Between two requests of an address, other traffic and clean-ups do not change the second answer. |
| `ApiThrottle.RemainingIsHonest` | src/shared/middleware/api-throttle.middleware.ts:75-112 | The remaining count and reset time predict the next request exactly, before and after the reset, whatever other addresses do meanwhile. |
| `ApiThrottle.RetryAfterIsHonest` | src/shared/middleware/api-throttle.middleware.ts:66-73 | Whatever other addresses do meanwhile, waiting longer than retryAfter lets a silent client in; waiting exactly that long is refused if and only if the rest of the window was whole seconds. |
| `ApiThrottle.ExactWaitMayBeRefused` | src/shared/middleware/api-throttle.middleware.ts:66-73 | A run in which a client waits exactly the announced second and is refused. |
| `PhoneUtil.NormalizeIsIdempotent` | src/shared/utils/phone.util.ts:20-48 | A normalised number starts with + and normalises to itself, so it finds its own record. |
| `PhoneUtil.NormalizeIs` | src/shared/utils/phone.util.ts:20-48 | Which numbers are accepted, on the text itself; the result is a plus and the digits of the number in order. |
| `PhoneUtil.DocumentedNumbers` | src/shared/utils/phone.util.ts:12-19 | Four examples of the documentation. |
| `OtpLifecycle.PhonesStayUnique` | src/modules/auth/infrastructure/persistence/typeorm/otp-request.repository.ts:19-25 | Every step keeps at most one undeleted record per phone. |
| `OtpLifecycle.TokensStayUnique` | src/modules/auth/domain/entities/otp-request.entity.ts:53-54 | Every step keeps each token in at most one record. |
| `OtpLifecycle.TableInvariantKept` | src/modules/auth/application/handlers/register.use-case.ts:109-113 | Every step, changes of phone included, keeps token and expiry null together and a user with every verified record. |
| `OtpLifecycle.RootedKept` | src/modules/auth/application/handlers/request-otp-phone.use-case.ts:47-122 | Every step of any handler keeps each record traceable to its latest request and its token to a verification, and the whole history well founded. |
| `OtpLifecycle.RunsAreRooted` | src/modules/auth/application/handlers/register.use-case.ts:47-113 | In every run each registration and each change of phone at t follows a verification of the same record and token at v <= t < v + 2 minutes, by the code of the latest request for that record, within its lifetime. |
| `OtpLifecycle.VerificationsAreTimely` | src/modules/auth/application/handlers/register.use-case.ts:47-60 | The same written out on the log, with two minutes as 120000 milliseconds and the minutes of the setting. |
| `OtpLifecycle.RecordsShowTheirRequests` | src/modules/auth/application/handlers/request-otp-phone.use-case.ts:98-112 | In every run a record shows code and time of its latest request and expires its minutes later; its token expires two minutes after the verification that issued it. |
| `OtpLifecycle.UsersComeFromRegistrations` | src/modules/auth/application/handlers/register.use-case.ts:66-94 | In every run users come from registrations only, and no two have the same address. |
| `OtpLifecycle.ProfilePhonesAreExclusive` | src/modules/user/application/handlers/update-profile.use-case.ts:83-176 | In every run the phone in a profile has an undeleted record verified for that user, and no two users have the same phone. |
| `OtpLifecycle.ProfileStep` | src/modules/user/application/handlers/update-profile.use-case.ts:143-181 | What every step makes of the phone in a profile. |
| `OtpLifecycle.RequestAnswers` | src/modules/auth/application/handlers/request-otp-phone.use-case.ts:51-95 | The answer to a request for a code, on the table, with its errors. |
| `OtpLifecycle.VerifyAnswers` | src/modules/auth/application/handlers/verify-otp.use-case.ts:21-46 | The answer to a code, on the table, with its errors. |
| `OtpLifecycle.RegisterAnswers` | src/modules/auth/application/handlers/register.use-case.ts:47-72 | The answer to a registration, on the tables. |
| `OtpLifecycle.ChangeAnswers` | src/modules/user/application/handlers/update-profile.use-case.ts:46-94 | The answer to a change of phone, on the tables, with its errors. |
| `OtpLifecycle.VerificationRooted` | src/modules/user/application/handlers/update-profile.use-case.ts:72-93 | A registration or change of phone keeps the provenance of the whole history, including its own. |
| `OtpLifecycle.VerifiedRecordsAreTraced` | src/modules/user/application/handlers/update-profile.use-case.ts:166-172 | In every run a verified record shows the latest registration or change of phone made with it, and still holds its token if and only if that was a change of phone; all verifications of a record are by one user with one token, and a registration is the only one. |
| `OtpLifecycle.TracedKept` | src/modules/user/application/handlers/update-profile.use-case.ts:166-172 | Every step keeps the agreement of each record with the latest registration or change of phone made with it. |
| `OtpLifecycle.VerifiedRowStays` | src/modules/auth/application/handlers/register.use-case.ts:53-55 | From being verified on, in every run, a record keeps phone, user, code, counter and token, and its time as well once a registration took the token. |
| `OtpLifecycle.PhoneChangeKeepsItsToken` | src/modules/user/application/handlers/update-profile.use-case.ts:166-172 | A run in which a record is verified by a change of phone, keeps its token, and is verified again with it. |
| `OtpLifecycle.OldPhoneIsFreedIff` | src/modules/user/application/handlers/update-profile.use-case.ts:153-162 | A change of phone is sure to free the old one, whatever the lookup answers, if and only if it had no active record, or the user has records of it of which none is deleted. |
| `OtpLifecycle.AbandonedPhoneIsTaken` | src/modules/user/application/handlers/update-profile.use-case.ts:153-181 | In every run, once an active verified record belongs to a phone its user left and its token has expired, it stays, and every request for that phone is answered that it already exists. |
| `OtpLifecycle.ClearedPhoneIsAbandoned` | src/modules/user/application/handlers/update-profile.use-case.ts:177-180 | A run in which a user clears the phone and leaves such a record. |
| `OtpLifecycle.StoredPhoneFindsItself` | src/modules/auth/infrastructure/persistence/typeorm/otp-request.repository.ts:19-25 | In every run stored phones are normalised, and a lookup of one meets its own active record. |
| `OtpLifecycle.OldPhoneMayStayBlocked` | src/modules/user/application/handlers/update-profile.use-case.ts:153-162 | A run of changes of phone after which a phone that nobody has is taken for good once the token has expired. |
| `OtpLifecycle.TokenBalanceKept` | src/modules/auth/application/handlers/register.use-case.ts:109-113 | Uses plus current holders never exceed issues: kept by every step. |
| `OtpLifecycle.TokensAreOneTime` | src/modules/auth/application/handlers/register.use-case.ts:109-113 | Over every run a token admits no more registrations than it was issued for. |
| `OtpLifecycle.VerifiedRowIsFinal` | src/modules/user/application/handlers/update-profile.use-case.ts:83-172 | What any step does to a verified record, exactly: nothing, or its user leaves the phone and it is marked deleted, or its user comes back to it with the token it holds and its time is set again. |
| `OtpLifecycle.IntervalInBurst` | src/modules/auth/application/handlers/request-otp-phone.use-case.ts:69-95 | An interval of window length that reaches the newest request lies within its burst. |
| `OtpLifecycle.IntervalWithin` | src/modules/auth/application/handlers/request-otp-phone.use-case.ts:69-95 | If no burst exceeds m, neither does any interval of window length. |
| `OtpLifecycle.RowLimitedAfterRequest` | src/modules/auth/application/handlers/request-otp-phone.use-case.ts:76-93 | The counter follows the burst length, whether the request extends the burst or starts one. |
| `OtpLifecycle.RunsAreLimited` | src/modules/auth/application/handlers/request-otp-phone.use-case.ts:69-122 | In every reachable state each counter is the number of requests of the current burst and no burst ever exceeded the maximum. |
| `OtpLifecycle.RequestBound` | src/modules/auth/application/handlers/request-otp-phone.use-case.ts:69-122 | In every run and any closed interval of window length at most max(1, maximum) codes are sent for a record. |
| `OtpLifecycle.PhoneBound` | src/modules/auth/application/handlers/request-otp-phone.use-case.ts:60-122 | Per phone: at most that many for each record it ever had. |
| `OtpLifecycle.PhoneMayExceedTheLimit` | src/modules/auth/application/handlers/request-otp-phone.use-case.ts:60-122 | A run in which a phone with two records one after the other gets two codes in a window with a maximum of one. |
| `OtpLifecycle.ReportedWaitIsEnough` | src/modules/auth/application/handlers/request-otp-phone.use-case.ts:74-95 | In any run, a caller refused once who asks again later than the reported minutes, with no code sent to that phone in between, is served, unless the record was verified meanwhile; after exactly those minutes the caller is refused again if and only if the record is still there, unverified, and the rest of the window was whole minutes. |
| `OtpLifecycle.QuietRun` | src/modules/auth/application/handlers/request-otp-phone.use-case.ts:60-122 | Over any part of a run that sends no code to a phone, no record of it becomes active and counter and time of its active record stay. |
| `OtpLifecycle.ExactWaitMayBeRefused` | src/modules/auth/application/handlers/request-otp-phone.use-case.ts:80-91 | A run in which the caller waits exactly the reported 15 minutes and is refused. |
| `OtpLifecycle.OtpService.FindByPhone` | src/modules/auth/infrastructure/persistence/typeorm/otp-request.repository.ts:19-25 | An undeleted record of the phone, or none if there is none. |
| `OtpLifecycle.OtpService.FindByToken` | src/modules/auth/infrastructure/persistence/typeorm/otp-request.repository.ts:40-48 | An undeleted record holding the token with its expiry ahead, or none if there is none. |
| `OtpLifecycle.OtpService.RequestOtpPhone` | src/modules/auth/application/handlers/request-otp-phone.use-case.ts:47-122 | Outcome and new tables of the handler, all branches. |
| `OtpLifecycle.OtpService.VerifyOtp` | src/modules/auth/application/handlers/verify-otp.use-case.ts:19-58 | The same, with the unique index refusing a token another record holds. |
| `OtpLifecycle.OtpService.RegisterUser` | src/modules/auth/application/handlers/register.use-case.ts:45-139 | The same; a refused registration changes nothing. Addresses of deleted users are refused as well, by the unique column. |
| `OtpLifecycle.OtpService.FindOwn` | src/modules/user/application/handlers/update-profile.use-case.ts:155-157 | A record of the phone and user, deleted or not, or none if there is none. |
| `OtpLifecycle.OtpService.UpdateProfilePhone` | src/modules/user/application/handlers/update-profile.use-case.ts:44-181 | Outcome and new tables of the phone part of a profile update, all branches. |
| `IpSync.KeyGivesUser` | src/commands/scheduler/user-ip-sync.service.ts:49-54 | The key pattern gives a user back exactly for that user's key. |
| `IpSync.UserIpSync.AddUserIp` | src/shared/redis/redis.service.ts:318-322 | Adds the address to the live set, or to an empty one after expiry, and renews the expiry. |
| `IpSync.UserIpSync.BulkUpsert` | src/modules/user/infrastructure/persistence/repositories/user-ip.repository.ts:54-73 | Succeeds if and only if no row is named twice; then new rows appear and old ones are re-stamped. |
| `IpSync.UserIpSync.MostRecentIp` | src/commands/scheduler/user-ip-sync.service.ts:102-108 | A row no other row of the user comes before, or none if there is none. |
| `IpSync.UserIpSync.CollectIps` | src/commands/scheduler/user-ip-sync.service.ts:45-70 | Exactly the recognisable users with a live non-empty set, each with that set. |
| `IpSync.UserIpSync.Flatten` | src/commands/scheduler/user-ip-sync.service.ts:82-87 | Lists exactly the pairs of the map, each once. |
| `IpSync.UserIpSync.CollectPairs` | src/commands/scheduler/user-ip-sync.service.ts:38-87 | A duplicate-free list of exactly the pairs found, and their users. |
| `IpSync.UserIpSync.UpsertAll` | src/commands/scheduler/user-ip-sync.service.ts:89-94 | The chunks together upsert exactly the list, each pair with the time of its own statement; none is refused; their number is the list length over 1000, rounded up. |
| `IpSync.UserIpSync.UpdateProfiles` | src/commands/scheduler/user-ip-sync.service.ts:96-137 | Exactly the listed users get a first row of the ordered query as last address. |
| `IpSync.UserIpSync.SyncUserIps` | src/commands/scheduler/user-ip-sync.service.ts:37-149 | Afterwards the table is the old one with every pair found upserted at the time of its statement, and last addresses are set for exactly the users found. |
| `IpSync.SyncDates` | src/modules/user/infrastructure/persistence/repositories/user-ip.repository.ts:54-73 | After a sync the pairs found have the time of their statement as update date and keep their creation date, and all other rows are as before. |
| `IpSync.RedisReflectsRun` | src/shared/redis/redis.service.ts:318-332 | In every run a set holds exactly the addresses added since it was last empty, and expires an hour after the last addition. |
| `IpSync.SetLivesAnHour` | src/shared/redis/redis.service.ts:318-332 | In every run the set of a user lives, under the documented key, exactly until an hour after the last request. |
| `IpSync.SyncFinds` | src/commands/scheduler/user-ip-sync.service.ts:38-70 | A sync finds exactly the pairs alive in Redis at that moment. |
| `IpSync.RowsAreTheSyncedPairs` | src/commands/scheduler/user-ip-sync.service.ts:37-94 | In every run a pair is in the table if and only if some sync met it alive. |
| `IpSync.TrackedInTimeIsSynced` | src/shared/interceptors/ip-tracking.interceptor.ts:129-131 | A pair whose tracking is followed by a sync in less than the hour is met by it. |
| `IpSync.NothingIsLost` | src/commands/scheduler/user-ip-sync.service.ts:37-94 | If that holds of every tracking, the table after a sync is exactly the set of pairs ever tracked. |
| `IpSync.FrequentSyncsSuffice` | src/commands/scheduler/user-ip-sync.service.ts:36-37 | Syncs less than an hour apart meet the condition. |
| `IpSync.LastIpIsNewestRow` | src/commands/scheduler/user-ip-sync.service.ts:101-117 | The stored last address is, of the live ones, one that no other comes after by statement time and then by creation time. |
| `IpSync.RowsAreOlder` | src/commands/scheduler/user-ip-sync.service.ts:36-37 | In every run, after syncs that do not overlap, all rows are older than the next sync. |
| `IpSync.LastIpIsLastRequestIff` | src/commands/scheduler/user-ip-sync.service.ts:97-117 | After any run, the next sync is sure to store the address of the last request if and only if every other live address of the user comes before it by statement and creation time. |
| `IpSync.LastIpMayBeStale` | src/commands/scheduler/user-ip-sync.service.ts:97-117 | A run, with a clock that only goes forward, of requests from a, b and a again, each followed by a sync, after which b is stored. |
| `TokenLifecycle.InvalidStaysInvalid` | src/modules/admin/domain/entities/admin-token.entity.ts:48-58 | No step and no later moment makes an invalid token valid again; owner and expiry never change. |
| `TokenLifecycle.TokenStep` | src/modules/auth/application/handlers/refresh-token.use-case.ts:46-109 | Written out on the tables: which steps make a token, with which owner and an expiry seven days later, and which steps revoke one, at their time. |
| `TokenLifecycle.SuccessIff` | src/modules/admin/application/handlers/login.use-case.ts:40-57 | When each use case answers with success, written out on the tables: for a login, the right password and an account in use. |
| `TokenLifecycle.TokenIsValidIff` | src/modules/admin/domain/entities/admin-token.entity.ts:48-58 | In every run at every time: a token is valid if and only if a login with the right password or a refresh with the right secret made it, both for an account in use, not more than seven days ago, and no event since ended it. |
| `TokenLifecycle.LineagesBeginWithLogins` | src/modules/auth/application/handlers/login.use-case.ts:43-94 | In every run each lineage begins with a login that had the right password, to an account in use then, which owns all its tokens. |
| `TokenLifecycle.PasswordChangesIff` | src/modules/admin/application/handlers/change-password.use-case.ts:43-84 | In every run the hash of an account changes exactly at a confirmed change with the right password or a confirmed reset with a live reset token, and the old one is kept with its reason. |
| `TokenLifecycle.StatusStep` | src/modules/user/application/handlers/admin/update-user.use-case.ts:60-75 | What each event makes of an account being active or deleted. |
| `TokenLifecycle.ResetTokensWereAsked` | src/modules/admin/application/handlers/reset-password.use-case.ts:47-53 | In every run a live reset token was asked for, for its account, and since then neither used nor expired. |
| `TokenLifecycle.RefreshKeepsTheNumber` | src/modules/admin/application/handlers/refresh-token.use-case.ts:82-107 | A refresh replaces one valid token by another: the number per account stays, the old one is dead, other accounts are untouched. |
| `TokenLifecycle.PasswordStepSessions` | src/modules/admin/application/handlers/change-password.use-case.ts:86-98 | The valid tokens of every account after a reset or change: none, the current one at most, or as before. |
| `TokenLifecycle.ResetTokenIsConsumed` | src/modules/admin/application/handlers/reset-password.use-case.ts:108-109 | In every run, after a successful reset the same reset token is refused in every later state, until a new request for a reset produces the same string. |
| `TokenLifecycle.OldTokenKept` | src/modules/auth/application/handlers/refresh-token.use-case.ts:46-109 | A step leaves lineage and owner of an existing token alone and never removes a revocation. |
| `TokenLifecycle.LineagesLinearKept` | src/modules/admin/application/handlers/refresh-token.use-case.ts:44-107 | The lineage invariant is kept by every step. |
| `TokenLifecycle.LineagesStayLinear` | src/modules/admin/application/handlers/refresh-token.use-case.ts:44-107 | In every run each login's chain of refreshes has at most one valid token at any time, and no token is refreshed twice. |
| `TokenLifecycle.DeadTokensStayDead` | src/modules/admin/domain/entities/admin-token.entity.ts:48-58 | A token invalid after n events is invalid after all events and at every later time. |
| `TokenLifecycle.ResetEndsSessionsForGood` | src/modules/admin/application/handlers/reset-password.use-case.ts:80-104 | In every run, after a successful reset no token the account had then is valid in any later state at any time. |
| `TokenLifecycle.ChangeEndsOtherSessionsForGood` | src/modules/admin/application/handlers/change-password.use-case.ts:86-98 | In every run, after a change of password with logoutAll the only token the account had then that can be valid later is the current one. |
| `TokenLifecycle.InactiveStayLoggedOut` | src/modules/user/application/handlers/admin/update-user.use-case.ts:168-175 | In every run an account that is deactivated or deleted has no valid token. |
| `TokenLifecycle.HistoriesStayComplete` | src/modules/admin/application/handlers/reset-password.use-case.ts:86-95 | In every run old-password rows in order, then the current hash, are all hashes the account ever had. |
| `TokenLifecycle.TokenService.LoginUseCase` | src/modules/admin/application/handlers/login.use-case.ts:39-95 | Success and the new token of a login. |
| `TokenLifecycle.TokenService.RefreshUseCase` | src/modules/auth/application/handlers/refresh-token.use-case.ts:36-109 | Success and new tables of a refresh. |
| `TokenLifecycle.TokenService.LogoutUseCase` | src/modules/auth/application/handlers/logout.use-case.ts:23-40 | Success and new tables of a logout. |
| `TokenLifecycle.TokenService.RevokeTokens` | src/modules/auth/application/handlers/reset-password.use-case.ts:94-101 | The loop revokes exactly the listed tokens but the spared one. |
| `TokenLifecycle.TokenService.ResetPasswordUseCase` | src/modules/auth/application/handlers/reset-password.use-case.ts:38-111 | Success and new tables of a reset. |
| `TokenLifecycle.TokenService.ChangePasswordUseCase` | src/modules/admin/application/handlers/change-password.use-case.ts:42-103 | Success and new tables of a password change. |
| `TokenLifecycle.TokenService.RevokeOpenTokens` | src/modules/user/application/handlers/admin/update-user.use-case.ts:170-174 | Revokes exactly the open tokens of the user. |
| `TokenLifecycle.TokenService.UpdateUserUseCase` | src/modules/user/application/handlers/admin/update-user.use-case.ts:43-175 | Success and new tables of an activation or deactivation. |
| `TokenLifecycle.TokenService.DeleteUserUseCase` | src/modules/user/application/handlers/admin/delete-user.use-case.ts:30-49 | Success and new tables of the deletion of a user. |
| `HasChild.AddKeepsFlag` | src/modules/post/application/handlers/user/add-comment.use-case.ts:153-158 | A new reply keeps the flags of all comments without a pending job right. |
| `HasChild.DeleteKeepsFlag` | src/modules/post/application/handlers/user/delete-comment.use-case.ts:48-95 | A deletion, with its subtree for posts, keeps the flags of all comments without a pending job right. |
| `HasChild.JobKeepsFlag` | src/shared/services/comment-has-child.service.ts:50-129 | A job keeps the flags of all comments without a pending job right. |
| `HasChild.StepKeepsConsistent` | src/shared/services/comment-has-child.service.ts:29-129 | Every step keeps the flag invariant: no pending job means a right flag. |
| `HasChild.JobsStayInTheirTable` | src/shared/services/comment-has-child.service.ts:60-128 | A job changes one flag and nothing else, never in another table. |
| `HasChild.BackFillIsConsistent` | src/migrations/1766633300000-add-has-child-to-comments.ts:41-73 | The migration makes every flag exact. |
| `HasChild.RunsStayConsistent` | src/shared/services/comment-has-child.service.ts:29-129 | The invariant holds in every state of every run. |
| `HasChild.FlagIsExact` | src/shared/services/comment-has-child.service.ts:29-129 | In any interleaving, whenever no job of a comment is pending, its flag says whether it has an undeleted child, post comments that are deleted themselves excepted; the flag never misses a child. |
| `HasChild.DeletedIff` | src/modules/post/application/handlers/user/delete-comment.use-case.ts:37-61 | In every run a comment gets deleted exactly when the author of it, or for posts of a comment it answers through undeleted ones, deletes that one; nothing else of it changes but the flag. |
| `HasChild.AddedIff` | src/modules/site-review/application/handlers/add-comment.use-case.ts:46-66 | In every run a comment appears exactly when it is posted to an open thread under an unused id and the comment it answers exists, for site reviews undeleted and of the same review; with these columns. |
| `HasChild.JobsFollow` | src/modules/post/application/handlers/user/delete-comment.use-case.ts:90-95 | A deletion by anyone else changes nothing; an admitted deletion or reply leaves exactly one job, for the parent. |
| `HasChild.DeletionLeavesFlagWrongIff` | src/modules/post/application/handlers/user/delete-comment.use-case.ts:54-88 | For those, the flag is wrong after the deletion if and only if the comment had an undeleted child before. |
| `HasChild.DeletedPostCommentKeepsFlag` | src/modules/post/application/handlers/user/delete-comment.use-case.ts:54-88 | A run from the empty tables, with no job left, after which a deleted comment has its flag set and no child. |
| `HasChild.CommentTree` | src/modules/post/infrastructure/persistence/typeorm/post-comment.repository.ts:183-203 | The level-by-level query returns exactly the live descendants. |
| `HasChild.CommentTables.constructor` | src/migrations/1766633300000-add-has-child-to-comments.ts:41-73 | The three updates compute the back-fill. |
| `HasChild.CommentTables.AddComment` | src/modules/site-review/application/handlers/add-comment.use-case.ts:45-165 | Inserts the reply and enqueues its parent, or refuses: unknown or deleted parent, another review, closed thread. |
| `HasChild.CommentTables.DeleteComment` | src/modules/post/application/handlers/user/delete-comment.use-case.ts:37-96 | Deletes the author's own comment, for posts with its live subtree, and enqueues its parent; other users are refused. |
| `HasChild.CommentTables.UpdateHasChild` | src/shared/services/comment-has-child.service.ts:50-129 | Writes the flag from whether a live child is found. |
| `Attendance.BetterIsPrefix` | src/modules/attendance/application/handlers/create-attendance.use-case.ts:108-136 | In a sorted list the rows better than a new one are exactly those the early exit has passed. |
| `Attendance.RankCountsBetter` | src/modules/attendance/application/handlers/create-attendance.use-case.ts:163-174 | With distinct times a rank is one more than the number of strictly better rows. |
| `Attendance.RankBounds` | src/modules/attendance/application/handlers/create-attendance.use-case.ts:163-174 | Also with ties: ranks are distinct, within 1..n, and better rows stand higher. |
| `Attendance.EveryRankTaken` | src/modules/attendance/application/handlers/create-attendance.use-case.ts:163-174 | Every place 1..n is taken: a bijection. |
| `Attendance.CheckInShiftsRanks` | src/modules/attendance/application/handlers/create-attendance.use-case.ts:138-174 | A check-in lowers exactly the rows it beats by one place. |
| `Attendance.EarlyRankIsFinal` | src/modules/attendance/application/handlers/create-attendance.use-case.ts:108-182 | The rank found before the insertion is the new row's place after the full re-ranking. |
| `Attendance.CheckInKeepsStreaks` | src/modules/attendance/application/handlers/create-attendance.use-case.ts:66-148 | A check-in keeps all streaks true. |
| `Attendance.YesterdayDecides` | src/modules/attendance/application/handlers/calculate-attendance-statistics.use-case.ts:43-55 | True streaks obey the recurrence through the day before. |
| `Attendance.RecalculateOnlyRanks` | src/modules/attendance/application/handlers/calculate-attendance-statistics.use-case.ts:19-75 | The batch job rewrites every total, streak and time with itself and changes only the ranks of its day. |
| `Attendance.ArrivalRanksAgree` | src/modules/attendance/application/handlers/calculate-attendance-statistics.use-case.ts:19-75 | In every run with distinct check-in times of the day, the batch job leaves its day ranked as check-ins rank it if and only if, in the table before it ran, nobody who came later stood higher. |
| `Attendance.ArrivalRanksMayBeWrong` | src/modules/attendance/application/handlers/calculate-attendance-statistics.use-case.ts:57-58 | A run of three check-ins on two days after which they are wrong. |
| `Attendance.StreaksAreTrue` | src/modules/attendance/application/handlers/create-attendance.use-case.ts:55-83 | In every state of every run each streak is the length of the user's maximal run of consecutive days, and each total equals it. |
| `Attendance.RanksAreKept` | src/modules/attendance/application/handlers/create-attendance.use-case.ts:150-174 | In every state of a run the ranks of a day are the places of an ordered listing, from the start or the last re-ranking of that day on, until the batch job runs for it. |
| `Attendance.RanksFollowTotalStreakTime` | src/modules/attendance/application/handlers/create-attendance.use-case.ts:94-104 | In the same states, of two rows of a day the one with the larger total has the better rank; with equal totals the one with the larger streak; with both equal the one with the earlier time. |
| `Attendance.AttendancesAreCheckIns` | src/modules/attendance/application/handlers/create-attendance.use-case.ts:55-91 | In every run the attendances are exactly the first check-ins of each user on each Korean day, at their times. |
| `Attendance.TotalIsAllDaysIffNoneMissed` | src/migrations/1765955273683-create-attendance-system.ts:132-137 | In every state of every run each stored total is at most the number of the user's attended days so far, and equals it, as the column comment says, if and only if the user never missed a day. |
| `Attendance.TotalForgetsMissedDays` | src/migrations/1765955273683-create-attendance-system.ts:132-137 | A run of check-ins on days 1 and 3: two attended days, a stored total of 1. |
| `Attendance.OnlyListing` | src/seeders/attendance-demo-seeder.ts:23-33 | A well ranked day with distinct times is ranked by its only listing. |
| `Attendance.TodayAndYesterday` | src/modules/attendance/application/handlers/create-attendance.use-case.ts:48-50 | The two dates are consecutive Korean days. |
| `Attendance.AttendanceTables.FindStatistics` | src/modules/attendance/application/handlers/create-attendance.use-case.ts:95-104 | An ordered listing of the day. |
| `Attendance.AttendanceTables.FindAttendances` | src/modules/attendance/application/handlers/calculate-attendance-statistics.use-case.ts:24-25 | The day's attendances by arrival. |
| `Attendance.AttendanceTables.RankAmong` | src/modules/attendance/application/handlers/create-attendance.use-case.ts:106-136 | The early-exit loop returns one more than the number of strictly better rows, ties included. |
| `Attendance.AttendanceTables.ReRankDay` | src/modules/attendance/application/handlers/create-attendance.use-case.ts:163-174 | Only ranks of the day change, they become the places of a listing, and none changes if they were right. |
| `Attendance.AttendanceTables.CheckInToday` | src/modules/attendance/application/handlers/create-attendance.use-case.ts:42-209 | Outcome, new row and ranks of a check-in, or no change; with distinct times the rank returned is 1 plus the number of rows with a larger total, or equal total and larger streak, or both equal and an earlier time. |
| `Attendance.AttendanceTables.Seed` | src/seeders/attendance-demo-seeder.ts:43-57 | Re-ranks today, and updates nothing after check-ins with distinct times. |
| `Attendance.AttendanceTables.ComputeStatistics` | src/modules/attendance/application/handlers/calculate-attendance-statistics.use-case.ts:31-69 | The map with its look-up table computes the batch rows. |
| `Attendance.AttendanceTables.CalculateStatistics` | src/modules/attendance/application/handlers/calculate-attendance-statistics.use-case.ts:19-75 | New tables of the batch job. |
| `LoginReward.LastLoginIsLatest` | src/modules/auth/application/handlers/login.use-case.ts:96-99 | The stored last login is the user's latest of the run. |
| `LoginReward.ComparisonFindsFirst` | src/modules/auth/application/handlers/login.use-case.ts:75-80 | So the comparison detects the first login of the day, in both directions. |
| `LoginReward.OneRewardPerDay` | src/modules/auth/application/handlers/login.use-case.ts:113-124 | In every run a user gets one reward on a Korean day if the day's first login asked for points, and none otherwise. |
| `LoginReward.LoginService.Execute` | src/modules/auth/application/handlers/login.use-case.ts:75-124 | The decision on the two computed dates is the one on Korean days; new last login and rewards. |
| `ContentSync.SyncAllAt` | src/commands/cli/commands/sync-user-comments.command.ts:165-248 | What syncing a source does to every key: listed items are synced, all else stays. |
| `ContentSync.HandleAt` | src/commands/cli/commands/sync-user-comments.command.ts:44-134 | The table after a run, key by key; rows of other users are untouched. |
| `ContentSync.RunReconciles` | src/commands/cli/commands/sync-user-posts.command.ts:52-136 | After one run each source item has its row with matching deletion and each orphan is deleted. |
| `ContentSync.MirroredIff` | src/commands/cli/commands/sync-user-comments.command.ts:182-188 | A key mirrors the item of its id in the source of its kind. |
| `ContentSync.LiveItemAfterOneRun` | src/commands/cli/commands/sync-user-comments.command.ts:206-234 | The row of an undeleted item after one run: exactly the dates of the item, except for a live row that had its update date but another creation date, which is stamped with the time of the run. |
| `ContentSync.DeletedItemAfterOneRun` | src/commands/cli/commands/sync-user-comments.command.ts:195-243 | The row of a deleted item after one run, in the same way: new, newly deleted, deleted before. |
| `ContentSync.DatesRightAfterOneRunIff` | src/commands/cli/commands/sync-user-posts.command.ts:62-114 | A row has the dates of its item after one run if and only if a condition on the table before the run holds. |
| `ContentSync.OtherRowsAfterOneRun` | src/commands/cli/commands/sync-user-posts.command.ts:118-136 | Every other row after one run: live rows of the user whose id no source knows are deleted then, and all else, other users included, is as before. |
| `ContentSync.CountsAreWhatHappened` | src/commands/cli/commands/sync-user-posts.command.ts:138-144 | The reported counts are the growth of the table, the remaining items, and the number of rows deleted now and not before. |
| `ContentSync.MirrorIsExactIffNothingMisfiled` | src/commands/cli/commands/sync-user-comments.command.ts:113-134 | The live rows mirror the live items exactly if and only if no live row was filed under the wrong kind. |
| `ContentSync.MisfiledRowSurvives` | src/commands/cli/commands/sync-user-comments.command.ts:113-134 | Two runs from an empty table after which a live row mirrors nothing. |
| `ContentSync.RunLeavesReconciled` | src/commands/cli/commands/sync-user-posts.command.ts:52-136 | After a run all sources agree and no live orphan is left. |
| `ContentSync.SecondRunIsQuiet` | src/commands/cli/commands/sync-user-posts.command.ts:138-145 | A second run reports no creation and no soft delete, and one update for each item. |
| `ContentSync.CreatedPlusUpdated` | src/commands/cli/commands/sync-user-posts.command.ts:138-138 | Created plus updated is the number of source items. |
| `ContentSync.KindsDoNotInterfere` | src/commands/cli/commands/sync-user-comments.command.ts:180-188 | Syncing one kind does not change what another kind finds. |
| `ContentSync.ReconciledCounts` | src/commands/cli/commands/sync-user-comments.command.ts:136-148 | On a reconciled table the counts of all sources are zero creations, one update for each item, zero deletions. |
| `ContentSync.TimestampsSettle` | src/commands/cli/commands/sync-user-posts.command.ts:62-114 | For one row: a second, later run copies the item's dates if and only if the first one did not stamp the row twice; three runs always do; a right row stays. |
| `ContentSync.RunsSettle` | src/commands/cli/commands/sync-user-comments.command.ts:44-134 | Three runs over unchanged sources give every item's row exactly its dates and reach a fixed point; two are enough if and only if no row was stamped twice. |
| `ContentSync.TwoRunsMayNotSettle` | src/commands/cli/commands/sync-user-posts.command.ts:99-114 | Two runs from the empty table that leave a row with another date than its item. |
| `ContentSync.ThreeSources` | src/commands/cli/commands/sync-user-comments.command.ts:44-111 | Passes one after the other give the same table and counts as judged by the table before the run. |
| `ContentSync.SyncCommand.SyncItems` | src/commands/cli/commands/sync-user-comments.command.ts:165-248 | The loop computes the synced table and the three counts. |
| `ContentSync.SyncCommand.CleanUpOrphans` | src/commands/cli/commands/sync-user-comments.command.ts:113-134 | Deletes exactly the live orphans of the user and counts them. |
| `ContentSync.SyncCommand.HandlePosts` | src/commands/cli/commands/sync-user-posts.command.ts:33-136 | Table and counts of a posts run. |
| `ContentSync.SyncCommand.HandleComments` | src/commands/cli/commands/sync-user-comments.command.ts:44-136 | Table and counts of a comments run over three sources. |

## Left out

- Interleavings inside one use case, such as two requests passing the same check before either writes.
- The points ledger, exchanges and redemption: a reward is one appended event.
- The rest of update-profile: names, pictures, badges, and profile updates without a phone. A user deleted while
  changing a phone.
- Sending of messages: a failed SMS leaves the record as written, which is what is modelled; the error itself is not.
- The text of codes and tokens (length, alphabet): they are arbitrary parameters.
- TokenService.LoginUseCase: does not model the last login time (`LoginReward` does, for users) or the device and
  address columns of the token.
- Other columns of users, tokens and profiles, and of the admins' update-user (points, roles, biography).
- CommentTables.AddComment: does not model how a thread is found open or images are accepted; the verdict
  is a parameter.
- Invalid Date arguments, and a `date` column's own conversion to and from text.
- A null `attendanceTime`: no modelled use case writes one.
- The check-in message, except for its length.
- Mirror tables with several rows for one key; the source would pick one of them.
- Database, Redis and queue failures, and jobs lost when the process stops.
- Foreign-key failures when an address belongs to a user that no longer exists.
- `LowerChar`: lower-casing beyond the characters that survive the next replacement.
- The manual trigger of the address sync, blocked addresses, and `removeUserIp`.
- Reparenting of comments and comments under posts that are deleted as a whole.
- Controllers, guards, data transfer objects, the socket gateway, cursors, other migrations and seeders.
- The order of rows with equal total, streak and time: SQL leaves it open. Ranks are then the places of some
  ordered listing (`RankBounds`); with distinct times they are determined (`RankCountsBetter`).
