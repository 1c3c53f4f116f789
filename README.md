# hopeful-compass-hub: a verified model of the edge functions and client helpers

This project models the logic inside the Supabase edge functions and the two
client helpers of the hopeful-compass-hub site, and proves properties of it.
Everything else in the site is presentation.

- **community-signup** (`signup.dfy`). The function checks a per-address rate
  limit of 3 sign-ups per hour. It then sanitises and validates the form
  (gender, country, city, e-mail, age, years of service, name, profession,
  share_story), inserts the member and answers with a status.
- **summarize-policy** (`summarize.dfy`). The function applies a per-address
  limit of 10 requests per minute. It then runs a chain of early-return checks
  on the submitted title and policy text, and forwards the text to an AI
  gateway.
- **fetch-news** (`news.dfy`). The function queries NewsAPI with the first
  three layoff keywords. It drops articles that have a missing field, a
  "[Removed]" title or an excluded ("hopeful") keyword. It cuts titles and
  descriptions to length and upserts the rest.
- **Shared parts.**
  - The rate limiter is a `Map` from client address to `{count, resetTime}`,
    with a size-triggered sweep. It is in `rate_limit.dfy`, with a pure
    specification `Decide` and a class `Limiter` whose `Check` method updates
    the map in place.
  - `getClientIP` is in `http.dfy`, the control-character strip plus `trim`
    in `text.dfy`.
- **NewsCard** (`time_ago.dfy`). `getTimeAgo` sorts an elapsed time into
  "Just now", "Nh ago", "Nd ago" or a date.
- **GovernmentPoliciesSection** (`policies.dfy`). This covers:
  - the country list: "All Countries" followed by each fetched country once;
  - the query that the country and type filters build;
  - the loading and error state kept around the two database reads.

The clock, the request headers, the parsed body and the answers of the
database, NewsAPI and the AI gateway are all parameters. Each handler is a
function or method from those inputs to its reply. Where it matters, the
handler also returns the row it would write.

Modelling choices, where the code decides:
- `trim` and the regex class `\s` use JavaScript's full white-space set
  (ECMAScript WhiteSpace and LineTerminator), not ASCII space only. Once
  control characters are stripped, the ones left are U+0020, U+00A0,
  U+1680, U+2000–U+200A, U+2028, U+2029, U+202F, U+205F, U+3000 and U+FEFF.
- JSON numbers are exact reals. `Number.isInteger(x)` is `x == x.Floor`.
- `typeof [] === 'object'`, so an array body passes the first sign-up check
  and then fails the field checks, since all its fields are undefined.
- In summarize-policy, destructuring a `null` body throws and is answered
  with 500. A body of another JSON type has no `title`/`policyText` and is
  "required".
- The error messages each function can push are a datatype. `Message()`
  gives the exact text the reply carries.

## Model

| member | source | states |
|---|---|---|
| Text.StripControls | supabase/functions/community-signup/index.ts:84 | the result has no character in U+0000–U+001F or U+007F and is no longer than the input |
| Text.StripControlsAppend | supabase/functions/community-signup/index.ts:84 | stripping a concatenation concatenates the stripped parts, and a single character is kept iff it is not a control character; so the kept characters stay in their original order |
| Text.StripControlsKeeps | supabase/functions/community-signup/index.ts:84 | every non-control character occurs exactly as often after the strip as before |
| Text.StripControlsOfClean | supabase/functions/community-signup/index.ts:84 | a string without control characters is unchanged by the strip |
| Text.TrimStart | supabase/functions/community-signup/index.ts:84 | the leading-trim result is a suffix of the input that does not start with white space, and every character it drops is white space |
| Text.TrimEnd | supabase/functions/community-signup/index.ts:84 | the trailing-trim result is a prefix of the input that does not end with white space, and every character it drops is white space |
| Text.Trim | supabase/functions/community-signup/index.ts:84 | the trim result is a slice s[a..b] of the input with white space at neither of its ends, where everything before a and from b on is white space; it keeps "no control characters" |
| Text.TrimKeeps | supabase/functions/community-signup/index.ts:84 | every character that is not white space occurs in the trim result exactly as often as in the input |
| Text.TrimOfTrimmed | supabase/functions/community-signup/index.ts:84 | trimming a trimmed string changes nothing |
| Text.Sanitize | supabase/functions/community-signup/index.ts:79-85 | the sanitised string has no control characters, no surrounding white space, and is no longer than the input. It is a slice of the stripped string with only white space cut off either side, and every character that is neither a control character nor white space occurs in it exactly as often as in the input |
| Text.SanitizeOfClean | supabase/functions/community-signup/index.ts:79-85 | a string that is already clean is its own sanitised form |
| Text.SanitizeIdempotent | supabase/functions/community-signup/index.ts:79-85 | sanitising twice gives the same as sanitising once |
| Text.SanitizeBlank | supabase/functions/summarize-policy/index.ts:116-119 | a string made only of control characters and white space sanitises to "" |
| Text.ToLower | supabase/functions/community-signup/index.ts:116 | lower-casing keeps the length |
| Text.ToLowerAt | supabase/functions/community-signup/index.ts:116 | lower-casing maps each character on its own, in place |
| Text.ToLowerIsLower | supabase/functions/community-signup/index.ts:116 | the result has no upper-case ASCII letter, and a string with none is unchanged |
| Text.ToLowerIdempotent | supabase/functions/community-signup/index.ts:116 | lower-casing twice equals lower-casing once |
| Text.ToLowerKeepsClean | supabase/functions/community-signup/index.ts:116 | lower-casing a sanitised string leaves it sanitised |
| Text.ToLowerPrefix | supabase/functions/fetch-news/index.ts:93-102 | lower-casing commutes with taking a prefix |
| Text.ContainsInPrefix | supabase/functions/fetch-news/index.ts:89-102 | whatever a prefix contains, the whole string contains |
| Text.NatToDecimal | src/components/navigate/NewsCard.tsx:89-91 | the rendering of a natural is a non-empty string of digits with no leading zero |
| Text.DecimalRoundTrip | src/components/navigate/NewsCard.tsx:89-91 | reading back the decimal rendering of n gives n |
| Http.Get | supabase/functions/community-signup/index.ts:94-97 | a member is defined exactly when the value is an object that has that key, and it is that key's value |
| Http.FirstSegment | supabase/functions/community-signup/index.ts:35 | `split(sep)[0]` is a prefix without the separator, followed in the input by the separator or by nothing |
| Http.ClientIp | supabase/functions/community-signup/index.ts:30-45 | the address is the trimmed first entry of x-forwarded-for, else the trimmed x-real-ip, else "unknown"; it is trimmed and has no comma when taken from x-forwarded-for |
| Http.ClientIpIgnoresOtherHeaders | supabase/functions/summarize-policy/index.ts:17-27 | the address depends on no header other than those two |
| RateLimit.CeilDiv1000 | supabase/functions/community-signup/index.ts:67 | `Math.ceil(x / 1000)` is the least r with x <= 1000 r |
| RateLimit.Sweep | supabase/functions/community-signup/index.ts:52-58 | the sweep keeps exactly the records whose window has not ended, each unchanged |
| RateLimit.Decide | supabase/functions/community-signup/index.ts:47-77 | the request is admitted iff there is no record, its window ended before now, or its count is below the limit. A new window stores count 1 ending now + window. A denial keeps the record and reports 0 attempts. An admission in an open window adds exactly 1 and reports limit − count |
| RateLimit.DecideFrame | supabase/functions/community-signup/index.ts:52-58 | every other address keeps its record, unless the map is over 10000 entries and that record's window ended before now |
| RateLimit.DecidePreservesWellFormed | supabase/functions/community-signup/index.ts:60-76 | every count stays in [1, limit] and every window ends at most one window length after the latest clock reading |
| RateLimit.ResetInSecondsBounded | supabase/functions/community-signup/index.ts:66-69 | with a clock that does not run backwards, resetInSeconds lies in [0, ceil(window / 1000)] |
| RateLimit.DenyLeavesRecord | supabase/functions/community-signup/index.ts:66-69 | a denial happens only in an open, full window, leaves the record unchanged and reports 0 attempts |
| RateLimit.NoSweepAtOrBelowThreshold | supabase/functions/community-signup/index.ts:52 | at or below 10000 entries no entry is removed; only the caller's may be added |
| RateLimit.AdmittedWithinWindow | supabase/functions/community-signup/index.ts:66-76 | within an open window, any sequence of requests from any addresses admits one address at most limit − count more times |
| RateLimit.AtMostLimitPerWindow | supabase/functions/community-signup/index.ts:60-76 | a window opened at `start` admits its address at most `limit` times up to start + window |
| RateLimit.Limiter.constructor | supabase/functions/community-signup/index.ts:10 | the map starts empty and the invariant holds |
| RateLimit.Limiter.RemoveExpired | supabase/functions/community-signup/index.ts:53-57 | the delete-while-iterating loop leaves exactly the entries whose window has not ended, with their records unchanged |
| RateLimit.Limiter.Check | supabase/functions/community-signup/index.ts:47-77 | the decision and the new map are those of `Decide`; the invariant is kept; resetInSeconds is bounded when the clock does not run backwards |
| Signup.SignupWindow | supabase/functions/community-signup/index.ts:60-69 | a new window admits with 2 attempts left, a reset in 3600 s and the record (1, now + 3600000); 3 requests in an open window deny |
| Signup.SanitizeString | supabase/functions/community-signup/index.ts:79-85 | null and undefined stay null; a string becomes its sanitised form, with everything Text.Sanitize states about it |
| Signup.SanitizeStringIdempotent | supabase/functions/community-signup/index.ts:79-85 | sanitising twice equals sanitising once |
| Signup.MatchesEmail | supabase/functions/community-signup/index.ts:28 | EMAIL_REGEX: a non-empty local part, one '@', a domain with a '.' that has text on both sides, no white space and no second '@' |
| Signup.EmailExamples | supabase/functions/community-signup/index.ts:28 | "ana@mail.org" matches; an address without a dot after the '@', with white space, with a second '@' or with an empty local part does not |
| Signup.Extract | supabase/functions/community-signup/index.ts:96-142 | the eight values validateInput reads from an object body: text fields sanitised when they are strings and null otherwise, the e-mail also lower-cased, numbers as given |
| Signup.FieldErrors | supabase/functions/community-signup/index.ts:96-142 | the errors of the eight checks, concatenated in the order the source pushes them |
| Signup.ValidateInput | supabase/functions/community-signup/index.ts:87-164 | a non-object body gives exactly [Invalid request body]. Otherwise the errors are the field checks' errors. It is valid iff there are no errors, and a sanitised row exists iff valid, with the body's boolean share_story and with age and years_of_service the body's numbers |
| Signup.NoFieldErrors | supabase/functions/community-signup/index.ts:146-148 | there are no errors iff every one of the eight checks passes |
| Signup.ErrorInSegment | supabase/functions/community-signup/index.ts:96-142 | a message is in the error list iff the one check that pushes it pushed it |
| Signup.BodyErrorAlone | supabase/functions/community-signup/index.ts:90-92 | "Invalid request body" is reported iff the body is not an object |
| Signup.GenderFieldErrors | supabase/functions/community-signup/index.ts:97-100 | the gender error appears iff the sanitised gender is missing or not one of the four values |
| Signup.RequiredSegment | supabase/functions/community-signup/index.ts:102-107 | a required field reports "required" iff it is missing or empty, and "too long" iff it is longer than its limit |
| Signup.CountryFieldErrors | supabase/functions/community-signup/index.ts:102-107 | country is required iff missing or empty after sanitising; it is too long iff over 100 characters, so exactly 100 passes |
| Signup.CityFieldErrors | supabase/functions/community-signup/index.ts:109-114 | the same for city |
| Signup.EmailFieldErrors | supabase/functions/community-signup/index.ts:116-121 | the e-mail error appears iff the lower-cased address is missing or does not match the regex; the length error iff it matches and is over 255 characters |
| Signup.NumberFieldErrors | supabase/functions/community-signup/index.ts:123-131 | age (years of service) is an error iff it is a number outside [16, 120] ([0, 60]) or not whole; an absent or non-number field is no error |
| Signup.OptionalFieldErrors | supabase/functions/community-signup/index.ts:133-142 | name (profession) is an error iff it is a string longer than 100 characters after sanitising |
| Signup.ExtractClean | supabase/functions/community-signup/index.ts:97-116 | every text field read from a body is sanitised, and the address is lower-case |
| Signup.WholeNumberInRange | supabase/functions/community-signup/index.ts:123-131 | a number that passed its range check is a whole number in range, stored as that integer |
| Signup.BuildMemberWellFormed | supabase/functions/community-signup/index.ts:150-164 | clean fields that pass every check build a row satisfying every constraint the checks impose, storing age and years_of_service as given |
| Signup.ValidMemberWellFormed | supabase/functions/community-signup/index.ts:150-164 | a valid body yields a well-formed row of the sanitised fields; empty name or profession becomes null; age and years_of_service are the body's numbers; share_story is true iff the body says `true` |
| Signup.MemberJsonFields | supabase/functions/community-signup/index.ts:96-144 | a well-formed row written back as a body reads back as its own fields |
| Signup.MemberFieldsPass | supabase/functions/community-signup/index.ts:146-164 | a well-formed row passes every check and is rebuilt unchanged |
| Signup.RevalidateMember | supabase/functions/community-signup/index.ts:87-164 | validation is a fixed point: a well-formed row sent again is accepted as exactly that row |
| Signup.IsDuplicate | supabase/functions/community-signup/index.ts:245 | an insert error is a duplicate when its message contains "duplicate" or its code is 23505 |
| Signup.HandleSignup | supabase/functions/community-signup/index.ts:167-276 | Every answer is characterised iff, in the source's order. Preflight iff OPTIONS; 405 iff neither OPTIONS nor POST; neither touches the limiter. A POST moves the limiter to `Decide`'s map. 429 iff denied, carrying Decide's resetInSeconds. For an admitted POST: invalid JSON iff the body did not parse; 400 with the validation messages iff the body is invalid; 500 configuration error iff valid but not configured; the sanitised row is inserted iff valid and configured. Then 409 iff the insert failed as a duplicate, the join error iff it failed otherwise, and 201 with Decide's remainingAttempts iff it succeeded |
| Summarize.SummarizeWindow | supabase/functions/summarize-policy/index.ts:42-50 | a new window admits with a reset in 60 s and the record (1, now + 60000); 10 requests in an open window deny |
| Summarize.CheckInput | supabase/functions/summarize-policy/index.ts:82-124 | only a null body is unreadable. Accepted values are the sanitised strings of the two string fields, clean and of length 1–200 and 1–10000 |
| Summarize.CheckFields | supabase/functions/summarize-policy/index.ts:85-98 | acceptance needs both fields to be strings, and then is the string chain's answer |
| Summarize.CheckStrings | supabase/functions/summarize-policy/index.ts:100-124 | the string part of the chain never reports a missing or mistyped field; what it accepts is sanitised, clean and within the limits |
| Summarize.RequiredFirst | supabase/functions/summarize-policy/index.ts:85-90 | "required" is answered iff either field is falsy, whatever else is wrong |
| Summarize.TypesSecond | supabase/functions/summarize-policy/index.ts:93-98 | with both present, "Invalid input types" iff either is not a string |
| Summarize.StringBody | supabase/functions/summarize-policy/index.ts:82-98 | any body whose title and policyText are non-empty strings goes straight to the length and content checks |
| Summarize.TitleLengthThird | supabase/functions/summarize-policy/index.ts:101-106 | for any body with two non-empty string fields, the title error is answered iff the raw title is over 200 characters |
| Summarize.TextLengthFourth | supabase/functions/summarize-policy/index.ts:108-113 | for any such body, the text error is answered iff the raw title is within its limit and the raw text is over 10000 |
| Summarize.ContentLast | supabase/functions/summarize-policy/index.ts:116-124 | for any such body within the limits, "Invalid input content" iff either sanitises to ""; otherwise the sanitised pair is accepted |
| Summarize.BlankTitleRejected | supabase/functions/summarize-policy/index.ts:116-124 | for any such body, a title of only control characters and white space is rejected as content |
| Summarize.RawLengthCounts | supabase/functions/summarize-policy/index.ts:100-117 | the limit applies before sanitising: 201 spaces before "x" are rejected although they sanitise to "x" |
| Summarize.AcceptedIsFixedPoint | supabase/functions/summarize-policy/index.ts:116-124 | the accepted pair, sent again, is accepted unchanged |
| Summarize.HandleSummarize | supabase/functions/summarize-policy/index.ts:56-203 | OPTIONS iff preflight, without touching the limiter. Any other method goes through the limiter before the body is looked at; 429 iff denied, with Decide's resetInSeconds. 400 with the chain's message iff rejected. The gateway is reached only for accepted input and a set key, answering 429, 402, 500 or the summary as the gateway's answer dictates |
| News.JoinAppend | supabase/functions/fetch-news/index.ts:53 | joining two non-empty lists gives their joins with one separator between |
| News.JoinLength | supabase/functions/fetch-news/index.ts:53 | a join is as long as its parts plus one separator between each two |
| News.SearchQuery | supabase/functions/fetch-news/index.ts:53 | the query is "layoffs OR job cuts OR mass layoffs" |
| News.MentionsExcluded | supabase/functions/fetch-news/index.ts:93-98 | some excluded keyword, lower-cased, occurs in the lower-cased title or description |
| News.Keep | supabase/functions/fetch-news/index.ts:85-100 | the filter callback: every required field truthy, no "[Removed]" in the title, no excluded keyword |
| News.Prefix | supabase/functions/fetch-news/index.ts:102-103 | `slice(0, n)` is a prefix of length min(n, length) |
| News.Prepare | supabase/functions/fetch-news/index.ts:84-107 | the output is no longer than the input |
| News.PrepareAppend | supabase/functions/fetch-news/index.ts:84-107 | the pipeline works article by article: preparing a concatenation concatenates the prepared parts, so input order is kept |
| News.PrepareMembership | supabase/functions/fetch-news/index.ts:84-107 | a row is in the output iff it is the normal form of a kept input article |
| News.Normalize | supabase/functions/fetch-news/index.ts:101-107 | the title is the input title's prefix of min(500, length) characters; the description is null iff missing or empty, else its prefix of min(1000, length); source, url and publishedAt are copied |
| News.NotInPrefix | supabase/functions/fetch-news/index.ts:102 | cutting a title cannot introduce a substring |
| News.NotInLowerPrefix | supabase/functions/fetch-news/index.ts:93-102 | the same after lower-casing |
| News.NormalizeClean | supabase/functions/fetch-news/index.ts:101-107 | a kept article's row has a title of 1–500 characters without "[Removed]" and a description of 1–1000 characters or null. Its other fields are non-empty, and it has no excluded keyword in any case |
| News.PrepareClean | supabase/functions/fetch-news/index.ts:84-107 | every prepared row is clean |
| News.DroppedIff | supabase/functions/fetch-news/index.ts:85-100 | an article is dropped iff a required field is falsy, the title contains "[Removed]", or an excluded keyword occurs in the lower-cased title or description |
| News.FetchNews | supabase/functions/fetch-news/index.ts:27-159 | OPTIONS iff preflight. A missing key fails with its message. Rows are written iff NewsAPI answered ok and the filtered list is non-empty, and they are exactly that list. "No new articles" iff it is empty. A non-ok NewsAPI status fails with "NewsAPI error: " and the status in decimal, a non-ok body with its message or "Unknown error", and a failed upsert with "Database error: " and the database's message. Completion reports the list's length and the upsert's row count |
| News.EmptyResultWritesNothing | supabase/functions/fetch-news/index.ts:109-115 | an empty filtered list answers count 0 and writes nothing |
| News.WrittenRowsClean | supabase/functions/fetch-news/index.ts:117-124 | whatever is upserted is clean, and 1 to |articles| rows |
| News.HttpErrorReported | supabase/functions/fetch-news/index.ts:67-71 | a non-ok NewsAPI status fails with that status in decimal, which reads back as the status |
| NewsCard.FloorDiv | src/components/navigate/NewsCard.tsx:83-84 | `Math.floor(x / unit)` is the q with unit q <= x < unit (q + 1) |
| NewsCard.Bucket | src/components/navigate/NewsCard.tsx:80-95 | "Just now" iff under an hour (including the future); hours iff [1 h, 24 h); days iff [1 d, 7 d); date iff 7 days or more or an invalid date. The number shown is the whole hours (1–23) or days (1–6) elapsed |
| NewsCard.TimeAgo | src/components/navigate/NewsCard.tsx:80-95 | "Just now" under an hour; "Nh ago" with N the whole hours elapsed below a day; "Nd ago" with N the whole days below a week; the date label from a week on or for an unparsable date |
| NewsCard.BucketMonotone | src/components/navigate/NewsCard.tsx:86-94 | a later publication never gives an older bucket or a larger number |
| NewsCard.FutureIsJustNow | src/components/navigate/NewsCard.tsx:86-87 | a publication date in the future reads "Just now" |
| NewsCard.HoursLabelReadsBack | src/components/navigate/NewsCard.tsx:88-89 | an "Nh ago" label ends in "h ago" and its digits read back as the whole hours elapsed |
| NewsCard.DaysLabelReadsBack | src/components/navigate/NewsCard.tsx:90-91 | a "Nd ago" label ends in "d ago" and its digits read back as the whole days elapsed |
| GovernmentPolicies.IndexOf | src/components/navigate/GovernmentPoliciesSection.tsx:48 | the first position of a value |
| GovernmentPolicies.Distinct | src/components/navigate/GovernmentPoliciesSection.tsx:48 | `[...new Set(xs)]` has no duplicates and exactly the values of xs |
| GovernmentPolicies.DistinctOrder | src/components/navigate/GovernmentPoliciesSection.tsx:48 | the distinct values come in first-occurrence order |
| GovernmentPolicies.CountryOptions | src/components/navigate/GovernmentPoliciesSection.tsx:48-49 | "All Countries" first, then the fetched countries, each once and every one of them |
| GovernmentPolicies.FirstTypeIsAll | src/components/navigate/GovernmentPoliciesSection.tsx:19-25 | the first policy type is "All Types" and no other entry is |
| GovernmentPolicies.PoliciesSection.constructor | src/components/navigate/GovernmentPoliciesSection.tsx:28-33 | the initial state: no policies, no countries, both filters on "All", loading, no error |
| GovernmentPolicies.PoliciesSection.LoadCountries | src/components/navigate/GovernmentPoliciesSection.tsx:37-50 | an error leaves the country list as it was; otherwise it becomes the country options of the fetched rows |
| GovernmentPolicies.PoliciesSection.Query | src/components/navigate/GovernmentPoliciesSection.tsx:61-72 | a policy satisfies the query iff it matches the selected country and type, each unless on its "All" entry; no clause is ever on an "All" value |
| GovernmentPolicies.PoliciesSection.StartFetch | src/components/navigate/GovernmentPoliciesSection.tsx:58-59 | loading, with the error cleared |
| GovernmentPolicies.PoliciesSection.FinishFetch | src/components/navigate/GovernmentPoliciesSection.tsx:76-84 | an error sets the message and keeps the policies; success stores the rows (or none) and keeps the error; loading ends either way |
| GovernmentPolicies.PoliciesSection.FetchPolicies | src/components/navigate/GovernmentPoliciesSection.tsx:57-85 | the query issued selects exactly the filtered policies. After the answer, loading has ended; an error keeps the policies, success stores them with no error shown |

## Left out

- Network, database and environment. These are parameters:
  - the Supabase insert, upsert, selects and the 30-day cleanup delete in
    fetch-news;
  - the NewsAPI and AI-gateway fetches, with their URLs, query parameters
    (`language`, `sortBy`, `pageSize`), request bodies and prompt;
  - `Deno.env`, `serve`/`Deno.serve` and the CORS headers.
- Response bodies are reduced to their meaning: status and payload fields.
  The fixed English error texts of replies that carry no computed data are
  not modelled, and neither is console logging. The texts fetch-news builds
  from NewsAPI's status or message and from the database's message are
  modelled.
- JSON numbers are exact reals, while `JSON.parse` rounds them to doubles.
  The source therefore accepts `"age": 15.99999999999999999` as 16 and
  `"age": 119.99999999999999999` as 120. The model rejects both as not whole
  numbers. Numbers that are exact doubles behave the same in both.
- `Date.now()` / `new Date()`: the clock is the parameter `now`. The date
  string `toLocaleDateString` produces is an opaque parameter. An unparsable
  date (NaN time) is `None`.
- The database's `.order(...)` sorting of countries and policies: the model
  takes the rows in the order they arrive.
- The rate limiter works per function instance, as the source comment
  admits. No claim is made across instances, and there is no concurrency.
- Summarize.HandleSummarize: summarize-policy's checkRateLimit returns no
  remainingAttempts. The shared `Decide` computes one, which that handler
  ignores.
- RateLimit.ResetInSecondsBounded: the [0, window] bound on resetInSeconds
  needs a clock that does not run backwards. With a clock that does, the
  source can report a longer wait, and the bound is conditional on that.
- String lengths count Unicode code points; JavaScript's `.length` and
  `.slice` count UTF-16 code units. They differ only for characters outside
  the Basic Multilingual Plane.
- Text.ToLower: this lower-cases ASCII letters only. JavaScript's
  `toLowerCase` also folds non-ASCII capitals, and the model differs from the
  source wherever one occurs:
  - community-signup stores the e-mail lower-cased, so for "ÄBC@x.de" the
    source stores "äbc@x.de" and the model "Äbc@x.de";
  - fetch-news compares keywords after lower-casing, and U+212A KELVIN SIGN
    lower-cases to ASCII "k". A title that spells "RESKILLING" with it is
    dropped by the source and kept by the model.
- Text.StripControls: its own contract states only that no control
  character remains. Which characters it keeps, how often and in what order
  is stated by Text.StripControlsKeeps and Text.StripControlsAppend.
- News.Prepare: article fields of a JSON type other than string (or missing
  or null) are not modelled. The source would throw on a non-string truthy
  title or description.
- The forum components, page layouts, animation and all rendering.
- The React effects that re-run `fetchPolicies` when a filter changes, and
  the filter setters in PolicyFilters.
- The try/catch of community-signup that answers 500 on an unexpected
  exception. No modelled step throws.
