# FarmInvest API: a Dafny model of its request handling

FarmInvest is a small REST backend. Users register and log in, and receive a
signed bearer token. Anyone may list and record farm investments. This
project models the core of `index.js` and proves properties of that model:

- the two request validators, `validateInvestment` and `validateRegistration`,
  including JavaScript truthiness, `typeof`, `String.prototype.trim` and its
  whitespace set, `Number(...)`, and the e-mail regular expression
  `^[^\s@]+@[^\s@]+\.[^\s@]+$`;
- the bearer-token gate `authenticateToken`: the token is the second piece of
  `authorization.split(' ')`;
- the handlers for register, login, me, list investments, create investment
  and health, over a `Database` class. The class holds the two tables, their
  auto-increment counters, the database clock that stamps `created_at`, and
  whether the database answers.

Modules:

- `JsText`: trim, the `\s` class, ASCII `toLowerCase`, and `split`/`join` on
  one character.
- `JsValues`: JSON body values, truthiness and `Number`.
- `Email`: the regular expression as a language. An executable check is
  proved equivalent to it in both directions.
- `Validators`: the validators as methods that push messages. A specification
  function gives each list. Lemmas prove that the list names each failed check
  exactly once, in field order, and that the list is uniquely determined.
- `Auth`: token extraction and the gate's verdict.
- `Api`: the handlers. Each state-changing handler is a method of `Database`
  whose `ensures` ties the response and the new tables to a pure outcome
  function (`RegisterOutcome`, `LoginOutcome`, `CreateOutcome`). The lemmas
  about those functions state what the routes promise:
  - the status codes each route can answer;
  - only a 201 touches a table;
  - a duplicate address is refused;
  - the stored row is exactly the trimmed, lower-cased and hashed one;
  - a later login after a registration returns the same user, with a token
    signed over the same claims;
  - the listing is a permutation of the table, newest first;
  - the table invariants are kept.

`validateRegistration` can throw: it calls `trim` on any truthy name, so a
number, boolean, array or object name throws a TypeError, which the route
answers with 500 (`Validators.ValidateRegistration`,
`Api.RegisterReportsErrors`). Three more 500s come from the code as written:

- An array e-mail whose joined text matches the pattern passes validation,
  then `toLowerCase` throws on it.
- An array password with six or more elements passes the `length < 6`
  check, and bcrypt then refuses it, because it is not a string.
- A truthy password that is neither a string nor an array has no `length`.
  It passes the `length < 6` check too, and bcrypt refuses it as well.

## Model

| member | source | states |
|---|---|---|
| JsText.TrimStartShape | index.js:66 | `trim`'s first half keeps a suffix of its input and removes only whitespace |
| JsText.TrimEndShape | index.js:66 | `trim`'s second half keeps a prefix of its input and removes only whitespace |
| JsText.Trim | index.js:87 | a trimmed string that is not empty neither starts nor ends with whitespace |
| JsText.TrimEmpty | index.js:66 | `s.trim() === ''` exactly when every character of `s` is whitespace |
| JsText.TrimIdempotent | index.js:134 | the stored name is trimmed, and trimming it again changes nothing |
| JsText.Utf16Length | index.js:87 | `.length` counts UTF-16 code units: a single character above U+FFFF counts 2 and any other 1; a string counts between one and two per character, and exactly one per character exactly when none lies above U+FFFF |
| JsText.Utf16LengthConcat | index.js:87 | the code units of a concatenation are the sum of the parts' code units, so with one or two units per character the count of every string is fixed |
| JsText.ToLower | index.js:121 | `toLowerCase` keeps the length and maps each character through the ASCII case mapping |
| JsText.ToLowerIdempotent | index.js:174 | a stored (lower-cased) address contains no capitals and is its own lower case, so lookups on it agree |
| JsText.Split | index.js:45 | `split` on one character returns at least one piece, and no piece contains the separator |
| JsText.JoinSplit | index.js:45 | joining the pieces of a split gives back the original string |
| JsText.SplitJoin | index.js:45 | splitting a join of separator-free pieces gives back the pieces |
| JsValues.ToNumber | index.js:70 | definition: `Number` of `undefined` or a plain object is NaN, of `null` or `false` 0, of `true` 1, of a number itself, of a string its parse, of an array the parse of its joined text |
| JsValues.FalsyValues | index.js:66 | `!v` holds exactly for `undefined`, `null`, `false`, `0` and `""`; every array and object is truthy |
| Email.EmailRegexEquivalence | index.js:91 | the executable check accepts exactly the strings the regular expression matches |
| Email.LowerKeepsEmailShape | index.js:121 | lower-casing neither creates nor destroys a match, so the stored address has the validated shape |
| Validators.TextFieldRejected | index.js:66 | `farmer_name` (and `crop`) is rejected unless it is a string with a non-whitespace character |
| Validators.AmountRejected | index.js:70 | the amount is rejected exactly when `Number(amount)` is not a positive number |
| Validators.AmountEdgeCases | index.js:70 | "100" and `true` pass; "abc", -5, 0, `null` and a missing amount fail |
| Validators.NameRejected | index.js:87 | a name that does not throw is rejected unless it is a string whose trimmed length, in UTF-16 code units, is at least 2 |
| Validators.EmailTest | index.js:91 | definition: `test` sees a string as it is and an array through its joined text; any other value's string form has no `@` and fails |
| Validators.EmailRejected | index.js:91 | definition: the e-mail is rejected when it is falsy or fails the pattern test |
| Validators.EmailTestMatches | index.js:91 | the pattern test succeeds exactly for a string, or an array's joined text, that matches the regular expression |
| Validators.EmailRejectedMeaning | index.js:91 | the e-mail check fails exactly when no string form of the value matches the regular expression |
| Validators.PasswordRejected | index.js:95 | a falsy password is rejected; a string password is rejected when it has fewer than 6 UTF-16 code units, an array when it has fewer than 6 elements; any other truthy value passes |
| Validators.NameLengthEdgeCases | index.js:87 | one character above U+FFFF makes a long enough name; " a " is too short |
| Validators.PasswordLengthEdgeCases | index.js:95 | three characters above U+FFFF make a long enough password; "abcde" is too short |
| Validators.ThreeChecksListed | index.js:63-79 | pushing the messages of three checks in turn gives a list with each message exactly when its check failed, in order, at most three long |
| Validators.RankedListsEqual | index.js:63-79 | two lists with the same members, each in strict field order, are the same list |
| Validators.InvestmentErrorsListed | index.js:63-79 | the investment error list names each failed check once, in field order, and is empty exactly when the body is accepted |
| Validators.RegistrationErrorsListed | index.js:84-100 | the registration error list names each failed check once, in field order, and (for a name that does not throw) is empty exactly when the body is accepted |
| Validators.InvestmentErrorsDetermined | index.js:63-79 | only one list satisfies the characterisation of an investment answer |
| Validators.RegistrationErrorsDetermined | index.js:84-100 | only one list satisfies the characterisation of a registration answer |
| Validators.ValidateInvestment | index.js:63-79 | the method returns the specified list: one message per failed check, in field order |
| Validators.ValidateRegistration | index.js:84-100 | the method throws exactly when the name is truthy but not a string; otherwise it returns the specified list |
| Auth.ExtractToken | index.js:44-45 | an extracted token is non-empty and contains no space |
| Auth.ExtractTokenMeaning | index.js:45 | a header yields token `t` exactly when `t` is the non-empty run of non-space characters right after the first space |
| Auth.Authenticate | index.js:43-58 | a request is admitted only with an extracted token that the verifier decodes, carrying the decoded claims |
| Auth.MissingTokenIgnoresVerifier | index.js:47-49 | without a usable token the gate answers 401, whatever the verifier would say |
| Auth.TokenDecidesByVerifier | index.js:51-57 | with a token the gate answers 403 exactly when the verifier refuses it, and otherwise passes on its claims |
| Api.UserWithEmail | index.js:119-122 | the lookup finds the first row with the address, and finds nothing exactly when no row has it |
| Api.UserWithId | index.js:217-220 | the lookup finds the first row with the id, and finds nothing exactly when no row has it |
| Api.InvestmentWithId | index.js:272-275 | the lookup finds the first row with the id, and finds nothing exactly when no row has it |
| Api.Reversed | index.js:241-243 | the listing holds the rows in the opposite order |
| Api.ReversedPermutes | index.js:241-244 | the listing contains every row, as many times as the table does |
| Api.ReversedIsNewestFirst | index.js:242 | rows stamped in insertion order, read backwards, are ordered by `created_at` descending |
| Api.AppendUserKeepsValid | index.js:132-135 | inserting a well-formed user with a fresh address, the next id and the current time keeps the users table valid |
| Api.AppendInvestmentKeepsValid | index.js:266-269 | inserting a well-formed investment with the next id and the current time keeps the investments table valid |
| Api.NewUser | index.js:132-135 | the inserted user has a trimmed name of at least 2 UTF-16 code units and a lower-cased address of the validated shape |
| Api.NewInvestment | index.js:266-269 | the inserted investment has trimmed, non-empty names and a positive amount |
| Api.NewestInvestmentFound | index.js:272-277 | reading back by the id just assigned finds the row just inserted |
| Api.RegisterOutcome | index.js:108-157 | definition: 500 for a throwing name; 400 with the error list for a rejected body; 500 for an array e-mail or an unreachable database; 400 for a taken lower-cased address; 500 for a non-string password; otherwise 201 with the new row's session, the row appended and the counter advanced |
| Api.RegisterAnswers | index.js:108-157 | register answers 201, 400 or 500; only a 201 changes the table; a 201 comes exactly for an accepted body with string e-mail and password, a reachable database and a free address |
| Api.RegisterReportsErrors | index.js:113-116 | a throwing name is a 500; any other failed check is a 400 listing exactly the failed checks |
| Api.RegisterRefusesTakenEmail | index.js:119-126 | an address some row already holds (after lower-casing) is refused with 400 and the table is unchanged |
| Api.RegisterAddsUser | index.js:128-152 | a successful registration appends exactly one row, with the trimmed name, the lower-cased address, the hash, the next id and the current time; the session answered is that row's; exactly one row holds the address |
| Api.RegisterStoresNewUser | index.js:128-152 | a successful registration appends exactly the row built from the body and answers with its session |
| Api.RegisterKeepsValid | index.js:108-157 | registration keeps the users table valid, whatever it answers |
| Api.RegisterAppendsWellFormed | index.js:132-135 | the row a successful registration appends keeps the users table valid |
| Api.AppendedEmailUnique | index.js:119-135 | after inserting a row with a free address, exactly one row holds it, and a lookup by it finds the new row |
| Api.RegisterTwice | index.js:119-126 | once a first registration succeeds, a second one whose address lower-cases to the same one gets 400 and leaves exactly one row with that address |
| Api.LoginOutcome | index.js:163-209 | definition: 400 for a missing field; 500 for a non-string e-mail or an unreachable database; 401 for an unknown lower-cased address; 500 for a non-string password; 401 when the hash does not match; otherwise 200 with the row's session |
| Api.LoginAnswers | index.js:163-209 | login answers 200, 400, 401 or 500; 400 exactly for a missing field; the same 401 for an unknown address and a wrong password; a 200 only for a stored row whose hash matches, answered without its password |
| Api.RegisterThenLogin | index.js:132-204 | registering and then logging in, at any later time, with the same credentials succeeds and returns the same user; both tokens are signed over the new row's claims, each at its own issue time |
| Api.CreateOutcome | index.js:255-282 | definition: 400 with the error list for a rejected body; 500 for an unreachable database; otherwise 201 with the new row, the row appended and the counter advanced |
| Api.CreateAnswers | index.js:255-282 | create answers 201, 400 or 500; 400 exactly for a rejected body, listing the failed checks; 500 exactly when the body is accepted and the database is down; only a 201 changes the table |
| Api.CreateAddsRow | index.js:266-277 | a successful creation appends exactly one row, with the trimmed names, `Number(amount)` (positive), the next id and the current time; answers with it; keeps the table valid; the new row carries the latest `created_at` |
| Api.Database.InsertUser | index.js:132-135 | the insert appends the row and advances the counter, keeping the users table valid |
| Api.Database.InsertInvestment | index.js:266-277 | the insert appends the row and advances the counter, and the read by the new id returns that row |
| Api.Database.Register | index.js:108-157 | the handler's response and the new users table are the register outcome for the old table, and the tables stay valid |
| Api.Database.RegisterValidated | index.js:118-152 | after validation, the handler's response and the new users table are the register outcome for the old table |
| Api.Database.Login | index.js:163-209 | the handler's response is the login outcome for the current table |
| Api.Database.Me | index.js:215-231 | 401 exactly without a token; 403 exactly for a token the verifier refuses; for an admitted token, 500 when the database is down, 404 when no row has the claimed id, otherwise 200 with that row's profile |
| Api.Database.ListInvestments | index.js:239-249 | when the database answers, 200 with a permutation of the table, newest first; otherwise 500 |
| Api.Database.CreateInvestment | index.js:255-282 | the handler's response and the new investments table are the create outcome for the old table, and the tables stay valid |
| Api.Database.Health | index.js:288-303 | always 200, reporting "ok"/"connected" exactly when the database answers, else "error"/"disconnected", with the time of the request |

## Left out

- Express routing, CORS, JSON body parsing, `dotenv` and `app.listen`: requests arrive as already-parsed bodies and headers.
- The MySQL pool and SQL text: the two tables are sequences in the `Database` class. A database that fails mid-request is not modelled; `online` holds for the whole request.
- bcrypt and JSON Web Tokens are opaque functions passed in as parameters (`hash`, `compare`, `sign`, `verify`). Their salt, cost factor, secret and 7-day expiry are not modelled. `Api.RegisterThenLogin` assumes that the hash verifies against its own plaintext.
- `Number` on strings is the abstract parameter `parseNumber`: the StringToNumber grammar, infinities and floating-point rounding are left out.
- JsText.ToLower: maps only the ASCII letters A-Z. JavaScript's `toLowerCase` also maps other Unicode letters (such as 'É' to 'é'), and the model does not, because the Unicode case tables are not part of it. An address with such letters is stored and looked up with them unchanged.
- Validators.NameRejected and Validators.PasswordRejected count lengths in UTF-16 code units, as JavaScript does. A string holding a lone surrogate cannot be represented, because Dafny characters are Unicode scalar values.
- JsValues.JsValue: a plain object is seen only as an object, and its keys are not read. So an own `length` key, which `password.length` at index.js:95 would read, is ignored: `{"length": 3}` passes the password check here, while the code rejects it with 400. An own `toString` key that is not callable makes `Number(...)` (index.js:70) and the pattern test (index.js:91) throw, and the route answers 500. The model answers 400 instead.
- The case-insensitive, trailing-space-insensitive collation MySQL may apply to `email = ?`: the lookup compares exactly.
- The DECIMAL rounding of the stored amount: the row keeps `Number(amount)` exactly.
- `created_at` is an integer clock rather than a timestamp string, and `Health` reports the request time as an integer rather than an ISO string.
- Api.Database.ListInvestments: gets its newest-first order by reversing the table. That is right only because the table invariant says rows are stamped in insertion order by a clock that never goes back. `ORDER BY created_at DESC` (index.js:242) orders any table, including rows written with an explicit `created_at` (seed.js) or after the database clock was set back. The model does not represent such tables. Its contract states a permutation ordered newest first, and leaves open the order of rows with equal `created_at`, as MySQL does.
- Api.CreateAddsRow: does not promise that the new row comes first in the listing, only that no row is newer. Rows created in the same second tie on `created_at`, and `ORDER BY created_at DESC` leaves their order open.
- Concurrent requests and the race between the duplicate check and the insert: each request runs alone.
- Console logging, the startup connection probe, and `seed.js`.
- `Api.Database.Me` reads the claimed id as an integer. A verified token whose payload has no `id` field is not modelled.
